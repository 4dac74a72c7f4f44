/**
 * The pure rules of the camera screen (app/camera.tsx): which way the camera
 * faces, how a saved photo is named, where `saveFile` copies a picture to,
 * and which overlay a detected barcode gets.
 */
module Camera {
  import opened Wrappers
  import opened Text

  // ---------------------------------------------------------------------------
  // Camera facing
  // ---------------------------------------------------------------------------

  datatype Facing = Back | Front

  /** The screen opens with the back camera. */
  const InitialFacing: Facing := Back

  /** `toggleCameraFacing`: back becomes front and anything else becomes back. */
  function Toggled(current: Facing): (next: Facing)
    ensures next != current
  {
    if current == Back then Front else Back
  }

  lemma ToggleTwiceRestores(f: Facing)
    ensures Toggled(Toggled(f)) == f
  {
  }

  // ---------------------------------------------------------------------------
  // Photo file name
  // ---------------------------------------------------------------------------

  /**
   * An ECMAScript time value (milliseconds since the epoch) is at most
   * 8.64e15 in magnitude, so its string form is plain decimal digits with an
   * optional minus sign, never exponent notation.
   */
  const MaxTimeValue := 8_640_000_000_000_000

  type TimeValue = t: int | -MaxTimeValue <= t <= MaxTimeValue

  const PhotoPrefix := "photo_"
  const PhotoExtension := ".jpg"

  /** `photo_${timestamp}.jpg` */
  function PhotoFileName(timestamp: TimeValue): (name: string)
    ensures |name| > |PhotoPrefix| + |PhotoExtension|
    ensures name[..|PhotoPrefix|] == PhotoPrefix
    ensures name[|name| - |PhotoExtension|..] == PhotoExtension
    ensures var middle := name[|PhotoPrefix|..|name| - |PhotoExtension|];
      IsCanonicalDecimal(middle) && (timestamp >= 0 ==> AllDigits(middle))
  {
    var digits := IntToDecimal(timestamp);
    IntToDecimalRoundTrip(timestamp);
    var name := PhotoPrefix + digits + PhotoExtension;
    assert name[|PhotoPrefix|..|name| - |PhotoExtension|] == digits;
    name
  }

  /** The timestamp carried by a name of the form `photo_<decimal>.jpg`, if it has that form. */
  function PhotoTimestamp(name: string): Option<int>
  {
    if |name| < |PhotoPrefix| + |PhotoExtension|
      || name[..|PhotoPrefix|] != PhotoPrefix
      || name[|name| - |PhotoExtension|..] != PhotoExtension
    then None
    else
      var middle := name[|PhotoPrefix|..|name| - |PhotoExtension|];
      if IsDecimalText(middle) then Some(ParseInt(middle)) else None
  }

  lemma PhotoFileNameRoundTrip(timestamp: TimeValue)
    ensures PhotoTimestamp(PhotoFileName(timestamp)) == Some(timestamp)
  {
    var name := PhotoFileName(timestamp);
    assert name[|PhotoPrefix|..|name| - |PhotoExtension|] == IntToDecimal(timestamp);
    IntToDecimalRoundTrip(timestamp);
  }

  /** Names are unique to the millisecond: different timestamps never share a name. */
  lemma DistinctTimestampsDistinctNames(a: TimeValue, b: TimeValue)
    requires a != b
    ensures PhotoFileName(a) != PhotoFileName(b)
  {
    PhotoFileNameRoundTrip(a);
    PhotoFileNameRoundTrip(b);
  }

  // ---------------------------------------------------------------------------
  // Copy destination of saveFile
  // ---------------------------------------------------------------------------

  const DcimPath := "file:///storage/emulated/0/DCIM"

  /**
   * `PATH + "/" + fileUri.split("/").pop()`: the DCIM folder, a slash, and
   * the last slash-separated segment of the source URI.
   */
  function CopyDestination(fileUri: string): (dest: string)
    ensures |dest| > |DcimPath|
    ensures dest[..|DcimPath| + 1] == DcimPath + "/"
    ensures IsLastSegment(fileUri, dest[|DcimPath| + 1..], '/')
  {
    var dest := DcimPath + "/" + LastSegment(fileUri, '/');
    assert dest[|DcimPath| + 1..] == LastSegment(fileUri, '/');
    dest
  }

  // ---------------------------------------------------------------------------
  // Barcode overlay
  // ---------------------------------------------------------------------------

  const UrlMarker := "https://"

  /** What the screen renders for the currently displayed code. */
  datatype Overlay = NoOverlay | CodeOnly(text: string) | CodeWithOpen(text: string)

  /**
   * The code box appears whenever a code is displayed; the "open" button
   * inside it appears when the code contains "https://".
   */
  function BarcodeOverlay(code: string): (r: Overlay)
    ensures r == NoOverlay <==> code == ""
    ensures r != NoOverlay ==> r.text == code
    ensures r.CodeWithOpen? <==> exists i :: OccursAt(code, UrlMarker, i)
  {
    if code == "" then NoOverlay
    else if Includes(code, UrlMarker) then CodeWithOpen(code)
    else CodeOnly(code)
  }

  lemma OverlayExamples()
    ensures BarcodeOverlay("https://example.com") == CodeWithOpen("https://example.com")
    ensures BarcodeOverlay("1234") == CodeOnly("1234")
    ensures BarcodeOverlay("see https://x") == CodeWithOpen("see https://x")
  {
  }
}
