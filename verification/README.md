# Camera screen: barcode cooldown, photo naming and the shutter sequence

A Dafny model of the logic in the camera screen of an Expo / React Native app
(`app/camera.tsx`). The screen shows a live camera feed, displays the QR codes
it detects, and saves photos into a folder the user chooses through Android's
Storage Access Framework. Only the sequential rules are modelled; rendering and
the library calls behind them are not.

- `wrappers.dfy` (`Wrappers`): an `Option` type for values that may be
  `undefined`.
- `text.dfy` (`Text`): the ECMAScript string operations the screen uses.
  `Includes` is `String.prototype.includes`. `Split` is `split` with a
  one-character separator, and `LastSegment` is `split(sep).pop()`.
  `IntToDecimal` is the decimal text that a template literal gives an integer
  of magnitude below 10^21, which covers every time value.
- `camera.dfy` (`Camera`): the pure rules. These are the front/back toggle,
  the `photo_<timestamp>.jpg` file name, the copy destination of `saveFile`,
  and the barcode overlay with its "open" button for codes containing
  `https://`.
- `debounce.dfy` (`Debounce`): the barcode cooldown. It has two layers. The
  first is a value-level state machine (`Snapshot`, `Step`, `Run`) with
  lemmas about event traces. The second is the class `BarcodeScanner`, whose
  methods `Scan`, `Tick` and `Fire` update the displayed code, the list of
  pending clear timers and an explicit clock in place. Each method is proved
  to make exactly the step that `Step` describes.
- `shutter.dfy` (`Shutter`): `handleShutter` as a method over abstract call
  outcomes (an `Environment`). It returns the operations it attempted, with
  their arguments, and how it ended: no picture, an escaped rejection, the
  directory denied, an error caught and logged, or the saved file.

Behaviour of the code worth knowing, which the model keeps:

- The cooldown is not a strict two-state machine. A scan accepted while
  nothing is displayed always schedules a clear timer, even when its payload
  is empty and nothing is displayed as a result. Such a stale timer later
  clears a code that was displayed after it, before that code's own 2000 ms
  have passed (`Debounce.StaleTimerClearsEarly`). For this reason the state
  keeps a list of pending timers, not a single expiry slot.
- The directory permission is requested on every shutter press, and the
  "ZipExtractor" folder is created on every press. Nothing checks whether it
  already exists.
- The photo file is created empty before the picture is read. A failure of
  the read or the write therefore leaves an empty file behind
  (`Shutter.EmptyFileLeftOnLateFailure`).
- `saveFile` is defined in the screen but nothing calls it. Only its
  destination path is modelled.

## Model

| member | source | states |
|---|---|---|
| `Text.Includes` | app/camera.tsx:147 | `s.includes(t)` is true exactly when `t` occurs in `s` at some index |
| `Text.Split` | app/camera.tsx:69 | `split` on a one-character separator gives at least one piece, no piece contains the separator, and joining the pieces with the separator gives back the input |
| `Text.LastSegment` | app/camera.tsx:74 | `split("/").pop()` is a suffix of the input with no separator, and it is either the whole input or preceded by a separator |
| `Text.NatToDecimal` | app/camera.tsx:106 | the decimal text of a non-negative number is non-empty, all digits, and has no leading zero (zero is the single digit `0`) |
| `Text.NatToDecimalRoundTrip` | app/camera.tsx:106 | reading the decimal digits back gives the original number |
| `Text.IntToDecimalRoundTrip` | app/camera.tsx:106 | the text of any integer, with a minus sign for negatives, is canonical decimal text that reads back as the same integer |
| `Camera.Toggled` | app/camera.tsx:56-58 | toggling always changes the facing: back gives front and front gives back |
| `Camera.ToggleTwiceRestores` | app/camera.tsx:57 | toggling twice restores the original facing |
| `Camera.PhotoFileName` | app/camera.tsx:105-106 | the name starts with `photo_` and ends with `.jpg`, and between them is the timestamp as canonical decimal text (no leading zero, a minus sign only for a negative value); for a non-negative timestamp that text is digits only |
| `Camera.PhotoFileNameRoundTrip` | app/camera.tsx:105-106 | the timestamp can be read back from the file name |
| `Camera.DistinctTimestampsDistinctNames` | app/camera.tsx:104-106 | timestamps that differ by at least one millisecond give different file names |
| `Camera.CopyDestination` | app/camera.tsx:61-74 | the destination starts with the DCIM path followed by `/`; the rest has no `/` and is the source URI's last path segment |
| `Camera.BarcodeOverlay` | app/camera.tsx:144-153 | no overlay exactly when no code is displayed; otherwise the overlay shows the code, with the "open" button exactly when `https://` occurs in it |
| `Camera.OverlayExamples` | app/camera.tsx:144-151 | `https://example.com` gets the open button and `1234` does not |
| `Debounce.StepKeepsConsistent` | app/camera.tsx:24-35 | every scan, clock advance or timer firing keeps these facts: timers are due in scheduling order, none is due more than 2000 ms ahead, and a displayed code always has a pending timer |
| `Debounce.RunKeepsConsistent` | app/camera.tsx:24-35 | any sequence of events keeps that invariant |
| `Debounce.ReachableIsConsistent` | app/camera.tsx:20-35 | every state reachable from the empty initial state satisfies the invariant |
| `Debounce.DisplayedCodeHoldsUntilExpiry` | app/camera.tsx:27 | while a code is displayed and no timer fires, no scan or passing time changes the code or the pending timers |
| `Debounce.FirstPayloadWins` | app/camera.tsx:27-29 | starting with nothing displayed and with no timer firing, the displayed code becomes the first non-empty scanned payload, and every later payload is ignored |
| `Debounce.AllDueAfterCooldown` | app/camera.tsx:30-32 | after 2000 ms every pending timer is due, so a displayed code can then be cleared |
| `Debounce.StaleTimerClearsEarly` | app/camera.tsx:29-32 | a timer scheduled by an empty-payload scan clears a later code 500 ms after it appeared |
| `Debounce.BarcodeScanner.constructor` | app/camera.tsx:20 | the screen starts with no code displayed and no timers |
| `Debounce.BarcodeScanner.Scan` | app/camera.tsx:24-35 | while a code is displayed, a scan changes nothing; otherwise the code becomes the payload text (or "") and exactly one timer due at now + 2000 is appended; the invariant is kept |
| `Debounce.BarcodeScanner.Tick` | app/camera.tsx:30-32 | time advances and nothing else changes |
| `Debounce.BarcodeScanner.Fire` | app/camera.tsx:30-32 | firing any due timer clears the displayed code, whichever scan scheduled it, and removes only that timer |
| `Shutter.HandleShutter` | app/camera.tsx:80-140 | the attempted operations are a prefix of take, preview, save, permission, make directory, create file, read, write; all but the last succeeded, and the sequence stops early only on a failure; the status says whether no picture was taken, the directory was denied, a rejection escaped outside the try block or was logged inside it, or the file was saved with the folder URI, the `photo_<timestamp>.jpg` name, the JPEG MIME type and the content read |
| `Shutter.AttemptIsUnique` | app/camera.tsx:80-140 | the call outcomes determine the attempted operations completely |
| `Shutter.AttemptInOrder` | app/camera.tsx:81-127 | the i-th attempted operation is always the i-th step of the fixed order |
| `Shutter.DeniedTouchesNoStorage` | app/camera.tsx:90-91 | without a directory grant, no folder creation, file creation, read or write is attempted |
| `Shutter.SucceedingPrefixReaches` | app/camera.tsx:90-127 | when every step before a given step succeeds, that step is attempted |
| `Shutter.FailureStopsLaterSteps` | app/camera.tsx:92-137 | a step that fails prevents every later step |
| `Shutter.EmptyFileLeftOnLateFailure` | app/camera.tsx:109-127 | when the read or the write rejects, the file has already been created; when the read rejects, nothing is ever written into it |

## Left out

- Rendering, layout and styles (app/camera.tsx:142-307) are UI only. The only rules in them are the barcode overlay and the open button, which are modelled.
- The preview thumbnail's size (`pic.width / 20`) and its dismiss button (`setPic(null)`) are display state with no rule to prove. The preview being set is modelled as the `ShowPreview` step.
- The camera permission gate (`useCameraPermissions`, app/camera.tsx:18, 39-54) is a library hook whose behaviour is not visible.
- The camera, media library, Storage Access Framework and FileSystem calls are abstract outcomes in `Shutter.Environment`: a value or a rejection. Their effects on real storage are not modelled. This includes the base64 read and write, and the `copyAsync` call of `saveFile`.
- `saveFile`'s unused `appGallaryPath` (app/camera.tsx:62) and its commented-out directory creation have no effect.
- The clock is a parameter: `Environment.clock` for the file name, and an explicit `now`, starting at 0, for the cooldown timers.
- Debounce.BarcodeScanner.Fire: any due timer may fire. The event loop's rule that due timers fire earliest first is not imposed, so the model allows more orders than the runtime does.
- Debounce.BarcodeScanner.Scan: each scan is processed against the latest state, one at a time. The callback memoised by `useCallback` may see a stale displayed code until the screen re-renders; that interleaving is not modelled.
- Shutter.HandleShutter: two shutter presses whose awaited calls interleave are not modelled; one press runs to completion against one environment.
- `Text.IntToDecimal` gives plain decimal text for every integer. ECMAScript switches to exponent form from magnitude 10^21 on, which is not modelled. Only time values, all below 8.64e15 in magnitude, are ever converted.
- Console logging has no behaviour. The `Logged` status stands for the catch block.
- `app/index.tsx` holds only navigation links and commented-out code.
