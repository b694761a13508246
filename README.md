# Emojifier, modelled in Dafny

The Emojifier is the part of the Emojify Android app that puts an emoji over
each face in a photo. For each face the detector reports, it does three
things:

- It classifies the face into one of eight emoji categories from three
  probabilities: left eye open, right eye open and smiling. A probability
  strictly above its threshold sets the matching flag. The thresholds are 0.5
  for the eyes and 0.15 for the smile.
- It loads the drawable for that category.
- It scales the drawable to 0.9 of the face width and draws it over the face.
  The drawable goes onto a new bitmap the size of the photo.

Each result becomes the background for the next face.

The model has two modules:

- `JavaArith` (`java_arith.dfy`) covers the parts of Java's `int` arithmetic
  that the Emojifier uses: wrap-around on overflow, `/` rounding toward zero,
  and the `(int)` cast from a floating-point value.
- `Emojifier` (`emojifier.dfy`) covers the rest:
  - the classifier (`whichEmoji`);
  - the switch from category to drawable;
  - the size and placement arithmetic of `addBitmapToFace`;
  - the loop in `detectFacesAndOverlayEmoji`, as a method checked against a
    recursive fold (`OverlayAll`).

A bitmap is its width, its height and the list of emoji drawn on it, bottom to
top. Each entry records the decoded emoji and the face it was drawn over.
`Placement` computes from those two the size and top-left position
`addBitmapToFace` gives the emoji, so every entry determines where it sits. The detector's output is an input map from key to `Face`, as the
`SparseArray` it returns. The loop reads it with `get(i)` for `i` from 0 to
`size() - 1`. When one of those keys is missing, `get` returns `null` and
`whichEmoji` dereferences it. The model then ends with `MissingFace(i)` in
place of the exception. Decoding a
drawable is a total function parameter, `decode`. `ValidAssets` requires it to
return the drawable it was asked for, with a positive width.

The classifier keeps the source's mirrored naming. Left eye open with right eye
closed gives `RightWink`, not `LeftWink`. `Depicts` gives the flags each
category stands for, and `Classify` is proved to invert it.

The height formula applies the scale factor twice: once through the new width
and once directly. The model keeps this exactly as written. `EmojiHeight` states
that the height is 0.9 of the aspect-preserving height, rounded down.
`CompositorExample` shows a case where this gives 40 instead of 45.

The source has no check that skips faces with zero or negative size. The model
follows the code and does not skip them either.

## Model

| member | source | states |
|---|---|---|
| `JavaArith.Wrap` | app/src/main/java/com/example/android/emojify/Emojifier.java:115-116 | The `int` product `emojiH * newEmojiWidth` is the mathematical product taken modulo 2^32 into the `int` range. It is unchanged when it already fits. |
| `JavaArith.Div` | app/src/main/java/com/example/android/emojify/Emojifier.java:115-116 | Java `/` with a positive divisor rounds toward zero. The remainder is smaller than the divisor and is zero or has the dividend's sign. |
| `JavaArith.ToInt` | app/src/main/java/com/example/android/emojify/Emojifier.java:114-116 | The `(int)` cast rounds toward zero (never past the value, less than 1 away from it) and saturates at the ends of the `int` range. |
| `Emojifier.Classify` | app/src/main/java/com/example/android/emojify/Emojifier.java:158-167 | The precedence chain returns the one category that depicts exactly the given flags (left-open/right-closed gives RightWink, and so on). |
| `Emojifier.WhichEmoji` | app/src/main/java/com/example/android/emojify/Emojifier.java:136-172 | Each flag of the chosen category is set if and only if its probability is strictly greater than its threshold (0.5 for each eye, 0.15 for the smile). |
| `Emojifier.ClassifyDepicts` | app/src/main/java/com/example/android/emojify/Emojifier.java:34-43 | Each of the eight categories is returned for the flags it depicts, so every category can be reached. |
| `Emojifier.ClassifyIsInjective` | app/src/main/java/com/example/android/emojify/Emojifier.java:160-167 | Distinct flag triples give distinct categories. With `ClassifyDepicts` (every category is reached), the eight triples and the eight categories are in one-to-one correspondence. |
| `Emojifier.SmileFlipChangesCategory` | app/src/main/java/com/example/android/emojify/Emojifier.java:160-167 | Flipping only the smiling flag changes the category and keeps both eye states. |
| `Emojifier.ThresholdsAreStrict` | app/src/main/java/com/example/android/emojify/Emojifier.java:30-31 | A probability exactly at its threshold does not set the flag. A face at all three thresholds is ClosedEyeFrown. |
| `Emojifier.DecisionTableExamples` | app/src/main/java/com/example/android/emojify/Emojifier.java:138-167 | Worked rows of the table, e.g. (0.6, 0.4, 0.1) gives RightWinkFrown and (0.51, 0.5, 0.16) gives RightWink. |
| `Emojifier.ResourceFor` | app/src/main/java/com/example/android/emojify/Emojifier.java:63-89 | Every category has an arm of the switch, so the `default` arm is never taken. Each arm loads the drawable that shows that same category. |
| `Emojifier.EmojiWidth` | app/src/main/java/com/example/android/emojify/Emojifier.java:114 | newEmojiWidth is an `int`. For a non-negative face width it lies between 0 and 0.9 times that width and is less than 1 below 0.9 times it (when in range). |
| `Emojifier.AspectHeight` | app/src/main/java/com/example/android/emojify/Emojifier.java:115-116 | When the product does not wrap around, `emojiH * newEmojiWidth / emojiW` is the floor of the aspect-preserving height: a·emojiW ≤ emojiH·w < (a+1)·emojiW. |
| `Emojifier.EmojiHeight` | app/src/main/java/com/example/android/emojify/Emojifier.java:115-116 | newEmojiHeight is an `int`. Without wrap-around it is non-negative, never exceeds the aspect-preserving height, and is 0.9 times that height rounded down (10·h ≤ 9·a < 10·h + 10). |
| `Emojifier.PositionX` | app/src/main/java/com/example/android/emojify/Emojifier.java:123-124 | The emoji's horizontal centre lies within half a pixel of the face's horizontal centre, and not left of it when the width is non-negative. The offset from the face centre is a whole number k, the emoji width halved and rounded toward zero (2k ≤ w < 2k + 2 for w ≥ 0, 2k − 2 < w ≤ 2k for w ≤ 0). |
| `Emojifier.PositionY` | app/src/main/java/com/example/android/emojify/Emojifier.java:125-126 | The point a third of the way down the emoji lies within two thirds of a pixel of the face's vertical centre, and not above it when the height is non-negative. The offset from the face centre is a whole number k, a third of the emoji height rounded toward zero (3k ≤ h < 3k + 3 for h ≥ 0, 3k − 3 < h ≤ 3k for h ≤ 0). |
| `Emojifier.Placement` | app/src/main/java/com/example/android/emojify/Emojifier.java:114-126 | The drawn emoji is `EmojiWidth` wide and `EmojiHeight` high. Its width is at most 0.9 of a non-negative face width, and its height is at most the aspect-preserving height when nothing wraps around. Its position is `PositionX` and `PositionY` of that size: the offsets from the face centre are whole numbers, the width halved and the height divided by three, each rounded toward zero. So it is centred horizontally on the face within half a pixel, and its upper third sits on the face's vertical centre within two thirds of a pixel. |
| `Emojifier.AddBitmapToFace` | app/src/main/java/com/example/android/emojify/Emojifier.java:104-134 | The result has exactly the background's width and height, keeps everything drawn on the background, and has exactly one new emoji on top: the given picture, drawn over the given face (at its `Placement`). |
| `Emojifier.CompositorExample` | app/src/main/java/com/example/android/emojify/Emojifier.java:114-126 | A 100×100 face at (50, 50) with a 200×100 emoji gives a 90×40 emoji at (55, 87). The 40 is below the aspect-preserving 45 because the scale factor is applied twice. |
| `Emojifier.EmojiFor` | app/src/main/java/com/example/android/emojify/Emojifier.java:63-90 | The emoji a face receives is drawn over that face, is the drawable of its category, and that drawable shows the face's category. |
| `Emojifier.OverlayFace` | app/src/main/java/com/example/android/emojify/Emojifier.java:63-90 | One pass of the loop keeps the background's size and contents and adds exactly the face's emoji (`EmojiFor`) on top. |
| `Emojifier.FacesInOrder` | app/src/main/java/com/example/android/emojify/Emojifier.java:61-63 | Reading the keys 0 .. n − 1 in turn gives n faces, the i-th being the face stored under key i. |
| `Emojifier.OverlayAll` | app/src/main/java/com/example/android/emojify/Emojifier.java:61-91 | Folding over the faces keeps the image size, keeps earlier content, and adds exactly one emoji per face. |
| `Emojifier.OverlayAllAt` | app/src/main/java/com/example/android/emojify/Emojifier.java:61-91 | The i-th emoji the fold adds is face i's emoji: the overlays stack in index order 0..N−1. |
| `Emojifier.OverlayAllSplits` | app/src/main/java/com/example/android/emojify/Emojifier.java:61-91 | Overlaying a face list in two parts gives the same bitmap as overlaying it in one go. Each overlay uses the previous result as its background. |
| `Emojifier.DetectFacesAndOverlayEmoji` | app/src/main/java/com/example/android/emojify/Emojifier.java:45-94 | The run completes exactly when every key 0 .. size − 1 holds a face, and its result is then the fold over the faces in key order. Otherwise it stops at the first missing key, where the source dereferences `null`. The "no faces" notice is raised exactly when there are no faces, and then the input comes back unchanged. |

## Left out

- The face detector (`FaceDetector`, `Frame`, `detect`, `release`) is an external library. The faces it returns are an input map from key to face.
- `Toast` and `Timber` calls are UI and logging only. The "no faces detected" toast becomes the driver's `noFacesNotice` result. The other toasts and log lines are not modelled.
- `BitmapFactory.decodeResource` becomes the `decode` parameter. The model does not cover a decode that returns `null`.
- Pixels are not modelled. `Bitmap.createScaledBitmap` resampling, `Canvas.drawBitmap` compositing and the bitmap's pixel config are left out. A bitmap is its dimensions plus its list of placed emoji.
- `createScaledBitmap` throws for a width or height of zero or less, and the source calls it without a guard. So the source throws for a face narrower than 10/9 pixel, or when the scaled height rounds down to 0. The model returns a bitmap holding such an emoji in those cases.
- Floating point is modelled as exact real arithmetic. This covers `0.9f`, the float face geometry and float probabilities compared with double thresholds. Float rounding is not captured. One example: the float nearest 0.15 is slightly above the double 0.15.
- JavaArith.Div: only positive divisors are modelled, since every division in the source is by 2, by 3 or by a bitmap width, and bitmap widths are positive.
- Emojifier.EmojiHeight: `(int)(aspect * 0.9f)` is modelled as `aspect * 9 / 10` on unbounded integers, which is what the cast gives under exact real arithmetic. The cast's saturation never applies to it, since `aspect` is an `int`.
- Emojifier.EmojiHeight: the bound and floor properties are stated only when `emojiH * newEmojiWidth` does not wrap around. The wrapped value is still modelled.
