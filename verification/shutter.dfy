/**
 * The shutter handler of the camera screen (`handleShutter`): take a
 * picture, show it as a preview, save it locally, ask for a directory, then
 * (inside one try block) create the "ZipExtractor" folder, create the photo
 * file, read the local picture as base64 and write it into the new file.
 *
 * The camera, the media library and the storage framework are not modelled:
 * an `Environment` fixes what each of their calls returns, and the handler
 * reports the operations it attempted, in order, and how it ended.
 */
module Shutter {
  import opened Wrappers
  import Camera

  /** What an awaited foreign call did: resolved with a value, or rejected. */
  datatype Call<T> = Returned(value: T) | Threw

  /** The outcome of every foreign call the handler can make, and the clock. */
  datatype Environment = Environment(
    takePicture: Call<bool>,              // Returned(false): no camera ref, so the call is skipped and there is no picture
    savePicture: Call<string>,            // the saved picture's local URI
    permission: Call<Option<string>>,     // Some(root URI) when the user grants a directory
    makeDirectory: Call<string>,          // URI of the created folder
    clock: Camera.TimeValue,              // `new Date().getTime()`
    createFile: Call<string>,             // URI of the created file
    readFile: Call<string>,               // the picture's bytes, base64-encoded
    writeFile: Call<()>)

  const SaveQuality := 1
  const FolderName := "ZipExtractor"
  const JpegMime := "image/jpeg"

  /**
   * An operation the handler performs, with its arguments. `TakePicture` is
   * the evaluation of `cameraRef.current?.takePictureAsync(...)`, including
   * the case where the camera ref is null and the optional chain skips the call.
   */
  datatype Op =
    | TakePicture
    | ShowPreview
    | SavePicture(quality: int)
    | RequestDirectoryPermission
    | MakeDirectory(parentUri: string, name: string)
    | CreateFile(directoryUri: string, fileName: string, mimeType: string)
    | ReadBase64(uri: string)
    | WriteBase64(fileUri: string, content: string)

  /** The file the handler has written when it finishes without error. */
  datatype SavedFile = SavedFile(directoryUri: string, fileName: string, mimeType: string, content: string)

  /** How the handler ended. */
  datatype Status =
    | NoPicture              // no picture was taken; nothing else happens
    | Escaped                // a call outside the try block rejected and the rejection leaves the handler
    | Denied                 // the user granted no directory
    | Logged                 // a call inside the try block rejected; the error is only logged
    | Saved(file: SavedFile)

  function ValueOr<T>(c: Call<T>, default: T): T
  {
    if c.Returned? then c.value else default
  }

  /**
   * The operations in the order the handler performs them when every call
   * succeeds; each takes its arguments from the results of the calls before
   * it. (Where a call rejected, the placeholder "" is never used: no later
   * operation runs.)
   */
  function Plan(env: Environment): seq<Op>
  {
    var root := ValueOr(env.permission, None);
    var folder := ValueOr(env.makeDirectory, "");
    [ TakePicture,
      ShowPreview,
      SavePicture(SaveQuality),
      RequestDirectoryPermission,
      MakeDirectory(if root.Some? then root.value else "", FolderName),
      CreateFile(folder, Camera.PhotoFileName(env.clock), JpegMime),
      ReadBase64(ValueOr(env.savePicture, "")),
      WriteBase64(ValueOr(env.createFile, ""), ValueOr(env.readFile, "")) ]
  }

  /** Index in the plan of the first operation inside the try block. */
  const FirstGuarded := 4

  /** Whether the operation at position `k` of the plan lets the handler go on. */
  predicate Succeeds(env: Environment, k: nat)
  {
    match k
    case 0 => env.takePicture == Returned(true)
    case 1 => true
    case 2 => env.savePicture.Returned?
    case 3 => env.permission.Returned? && env.permission.value.Some?
    case 4 => env.makeDirectory.Returned?
    case 5 => env.createFile.Returned?
    case 6 => env.readFile.Returned?
    case 7 => env.writeFile.Returned?
    case _ => false
  }

  /** Whether the operation at position `k` of the plan rejected (rather than returning nothing useful). */
  predicate Rejects(env: Environment, k: nat)
  {
    match k
    case 0 => env.takePicture.Threw?
    case 1 => false
    case 2 => env.savePicture.Threw?
    case 3 => env.permission.Threw?
    case 4 => env.makeDirectory.Threw?
    case 5 => env.createFile.Threw?
    case 6 => env.readFile.Threw?
    case 7 => env.writeFile.Threw?
    case _ => false
  }

  /**
   * `trace` is what the handler attempts in `env`: a prefix of the plan,
   * every operation in it but the last succeeded, and it stops short of the
   * plan's end only because its last operation failed.
   */
  ghost predicate IsAttempt(env: Environment, trace: seq<Op>)
  {
    var plan := Plan(env);
    1 <= |trace| <= |plan| && trace == plan[..|trace|] &&
    (forall k :: 0 <= k < |trace| - 1 ==> Succeeds(env, k)) &&
    (|trace| < |plan| ==> !Succeeds(env, |trace| - 1))
  }

  predicate IsStorageOp(op: Op)
  {
    op.MakeDirectory? || op.CreateFile? || op.ReadBase64? || op.WriteBase64?
  }

  /** `handleShutter`, run against the call outcomes in `env`. */
  method HandleShutter(env: Environment) returns (trace: seq<Op>, status: Status)
    ensures IsAttempt(env, trace)
    ensures status == NoPicture <==> env.takePicture == Returned(false)
    ensures status == Denied <==> |trace| == FirstGuarded && env.permission == Returned(None)
    ensures status == Escaped <==> |trace| <= FirstGuarded && Rejects(env, |trace| - 1)
    ensures status == Logged <==> |trace| > FirstGuarded && Rejects(env, |trace| - 1)
    ensures status.Saved? <==> |trace| == |Plan(env)| && Succeeds(env, |trace| - 1)
    ensures status.Saved? ==>
      env.makeDirectory.Returned? && env.readFile.Returned? &&
      status.file == SavedFile(env.makeDirectory.value, Camera.PhotoFileName(env.clock), JpegMime, env.readFile.value)
  {
    var plan := Plan(env);
    trace := [TakePicture];
    assert trace == plan[..1];
    match env.takePicture {
      case Threw => return trace, Escaped;
      case Returned(taken) =>
        if !taken {
          return trace, NoPicture;
        }
    }
    trace := trace + [ShowPreview];
    trace := trace + [SavePicture(SaveQuality)];
    assert trace == plan[..3];
    if env.savePicture.Threw? {
      return trace, Escaped;
    }
    var savedUri := env.savePicture.value;
    trace := trace + [RequestDirectoryPermission];
    assert trace == plan[..4];
    if env.permission.Threw? {
      return trace, Escaped;
    }
    if env.permission.value.None? {
      return trace, Denied;
    }
    var rootUri := env.permission.value.value;

    trace := trace + [MakeDirectory(rootUri, FolderName)];
    assert trace == plan[..5];
    if env.makeDirectory.Threw? {
      return trace, Logged;
    }
    var folderUri := env.makeDirectory.value;
    var fileName := Camera.PhotoFileName(env.clock);
    trace := trace + [CreateFile(folderUri, fileName, JpegMime)];
    assert trace == plan[..6];
    if env.createFile.Threw? {
      return trace, Logged;
    }
    var fileUri := env.createFile.value;
    trace := trace + [ReadBase64(savedUri)];
    assert trace == plan[..7];
    if env.readFile.Threw? {
      return trace, Logged;
    }
    var content := env.readFile.value;
    trace := trace + [WriteBase64(fileUri, content)];
    if env.writeFile.Threw? {
      return trace, Logged;
    }
    assert trace == plan;
    status := Saved(SavedFile(folderUri, fileName, JpegMime, content));
  }

  /** The attempted operations are determined by the call outcomes alone. */
  lemma AttemptIsUnique(env: Environment, t1: seq<Op>, t2: seq<Op>)
    requires IsAttempt(env, t1) && IsAttempt(env, t2)
    ensures t1 == t2
  {
  }

  /** Without a directory grant no folder, file, read or write is attempted. */
  lemma DeniedTouchesNoStorage(env: Environment, trace: seq<Op>)
    requires IsAttempt(env, trace) && env.permission == Returned(None)
    ensures forall k :: 0 <= k < |trace| ==> !IsStorageOp(trace[k])
  {
    assert !Succeeds(env, 3);
    if |trace| > FirstGuarded {
      assert false;
    }
  }

  /** Position of an operation in the handler's sequence. */
  function Rank(op: Op): nat
  {
    match op
    case TakePicture => 0
    case ShowPreview => 1
    case SavePicture(_) => 2
    case RequestDirectoryPermission => 3
    case MakeDirectory(_, _) => 4
    case CreateFile(_, _, _) => 5
    case ReadBase64(_) => 6
    case WriteBase64(_, _) => 7
  }

  /**
   * The operations are attempted in the fixed order picture, preview, save,
   * permission, folder, file, read, write, each at most once.
   */
  lemma AttemptInOrder(env: Environment, trace: seq<Op>, i: nat)
    requires IsAttempt(env, trace) && i < |trace|
    ensures Rank(trace[i]) == i
  {
  }

  /** When every operation before position `n` succeeds, the one at `n` is attempted. */
  lemma SucceedingPrefixReaches(env: Environment, trace: seq<Op>, n: nat)
    requires IsAttempt(env, trace) && n < |Plan(env)|
    requires forall k :: 0 <= k < n ==> Succeeds(env, k)
    ensures n < |trace|
  {
  }

  /** The first failure prevents every later operation. */
  lemma FailureStopsLaterSteps(env: Environment, trace: seq<Op>, k: nat)
    requires IsAttempt(env, trace) && k < |Plan(env)| && !Succeeds(env, k)
    ensures |trace| <= k + 1
  {
  }

  /**
   * Creating the file and filling it are separate steps: when the read or
   * the write rejects, the new, empty file has been created and is never
   * written.
   */
  lemma EmptyFileLeftOnLateFailure(env: Environment, trace: seq<Op>)
    requires IsAttempt(env, trace)
    requires env.takePicture == Returned(true) && env.savePicture.Returned?
    requires env.permission.Returned? && env.permission.value.Some?
    requires env.makeDirectory.Returned? && env.createFile.Returned?
    requires env.readFile.Threw? || env.writeFile.Threw?
    ensures CreateFile(env.makeDirectory.value, Camera.PhotoFileName(env.clock), JpegMime) in trace
    ensures env.readFile.Threw? ==> forall k :: 0 <= k < |trace| ==> !trace[k].WriteBase64?
  {
    assert forall k :: 0 <= k < 6 ==> Succeeds(env, k);
    SucceedingPrefixReaches(env, trace, 5);
    assert trace[5] == Plan(env)[5];
    if env.readFile.Threw? {
      FailureStopsLaterSteps(env, trace, 6);
      assert forall k :: 0 <= k < |trace| ==> trace[k] == Plan(env)[k];
    }
  }
}
