/** The Emojifier: it classifies each detected face into one of eight emoji
    categories from three detector probabilities, picks the picture for that
    category, and stacks the scaled picture over the face, one face after the
    other.

    Bitmaps are reduced to their dimensions and the list of emoji drawn on
    them; the face detector's output is an input map from key to face record
    and resource decoding is a total function from drawable to decoded picture. */
module Emojifier {
  import opened JavaArith

  const SmilingProbThreshold: real := 0.15
  const EyeOpenProbThreshold: real := 0.5
  const EmojiScaleFactor: real := 0.9

  /** The eight categories, in the order the source declares them. */
  datatype Emoji =
    | Frown
    | ClosedEyeFrown
    | ClosedEyeSmile
    | LeftWink
    | RightWink
    | Smile
    | RightWinkFrown
    | LeftWinkFrown

  /** A detected face: top-left corner, size, and the three probabilities. */
  datatype Face = Face(
    x: real, y: real, width: real, height: real,
    leftEyeOpenProb: real, rightEyeOpenProb: real, smilingProb: real)

  /** The three flags the classifier derives from a face. */
  datatype Expression = Expression(leftEyeOpen: bool, rightEyeOpen: bool, smiling: bool)

  // ---------------------------------------------------------------------
  // Classifier (whichEmoji)
  // ---------------------------------------------------------------------

  /** The flags of a face: a probability strictly above its threshold sets the flag. */
  function Flags(face: Face): Expression {
    Expression(
      face.leftEyeOpenProb > EyeOpenProbThreshold,
      face.rightEyeOpenProb > EyeOpenProbThreshold,
      face.smilingProb > SmilingProbThreshold)
  }

  /** What each category depicts, in the source's naming: a "right wink" is
      the face with the left eye open and the right eye shut. */
  function Depicts(e: Emoji): Expression {
    match e
    case Smile          => Expression(true, true, true)
    case Frown          => Expression(true, true, false)
    case RightWink      => Expression(true, false, true)
    case RightWinkFrown => Expression(true, false, false)
    case LeftWink       => Expression(false, true, true)
    case LeftWinkFrown  => Expression(false, true, false)
    case ClosedEyeSmile => Expression(false, false, true)
    case ClosedEyeFrown => Expression(false, false, false)
  }

  /** The if/else precedence chain of the classifier: its answer is the
      category that depicts exactly the given flags. */
  function Classify(x: Expression): (e: Emoji)
    ensures Depicts(e) == x
  {
    if x.leftEyeOpen && !x.rightEyeOpen then
      (if x.smiling then RightWink else RightWinkFrown)
    else if !x.leftEyeOpen && x.rightEyeOpen then
      (if x.smiling then LeftWink else LeftWinkFrown)
    else if !x.leftEyeOpen then
      (if x.smiling then ClosedEyeSmile else ClosedEyeFrown)
    else
      (if x.smiling then Smile else Frown)
  }

  /** whichEmoji: the category of a face. Each flag of the category is set
      exactly when the probability is strictly above its threshold. */
  function WhichEmoji(face: Face): (e: Emoji)
    ensures Depicts(e).leftEyeOpen <==> face.leftEyeOpenProb > EyeOpenProbThreshold
    ensures Depicts(e).rightEyeOpen <==> face.rightEyeOpenProb > EyeOpenProbThreshold
    ensures Depicts(e).smiling <==> face.smilingProb > SmilingProbThreshold
  {
    Classify(Flags(face))
  }

  /** Every category is the answer for the flags it depicts. */
  lemma ClassifyDepicts(e: Emoji)
    ensures Classify(Depicts(e)) == e
  {
    match e
    case Smile =>
    case Frown =>
    case RightWink =>
    case RightWinkFrown =>
    case LeftWink =>
    case LeftWinkFrown =>
    case ClosedEyeSmile =>
    case ClosedEyeFrown =>
  }

  /** Distinct flag triples give distinct categories. Together with
      `ClassifyDepicts` (every category is reached), the eight triples and
      the eight categories are in one-to-one correspondence. */
  lemma ClassifyIsInjective(x: Expression, y: Expression)
    ensures Classify(x) == Classify(y) ==> x == y
  {
  }

  /** Flipping only the smiling flag changes the category and keeps the
      pair of eye states. */
  lemma SmileFlipChangesCategory(x: Expression)
    ensures Classify(x.(smiling := !x.smiling)) != Classify(x)
    ensures Depicts(Classify(x.(smiling := !x.smiling))).leftEyeOpen == Depicts(Classify(x)).leftEyeOpen
    ensures Depicts(Classify(x.(smiling := !x.smiling))).rightEyeOpen == Depicts(Classify(x)).rightEyeOpen
  {
  }

  /** A probability exactly at a threshold does not set the flag (that any
      larger one does is part of `WhichEmoji`'s contract). */
  lemma ThresholdsAreStrict(face: Face)
    ensures face.leftEyeOpenProb == EyeOpenProbThreshold ==> !Depicts(WhichEmoji(face)).leftEyeOpen
    ensures face.rightEyeOpenProb == EyeOpenProbThreshold ==> !Depicts(WhichEmoji(face)).rightEyeOpen
    ensures face.smilingProb == SmilingProbThreshold ==> !Depicts(WhichEmoji(face)).smiling
    ensures (face.leftEyeOpenProb == EyeOpenProbThreshold && face.rightEyeOpenProb == EyeOpenProbThreshold
             && face.smilingProb == SmilingProbThreshold) ==> WhichEmoji(face) == ClosedEyeFrown
  {
  }

  /** The decision table, row by row, for concrete probabilities. */
  lemma DecisionTableExamples()
    ensures WhichEmoji(Face(0.0, 0.0, 1.0, 1.0, 0.6, 0.6, 0.2)) == Smile
    ensures WhichEmoji(Face(0.0, 0.0, 1.0, 1.0, 0.6, 0.4, 0.1)) == RightWinkFrown
    ensures WhichEmoji(Face(0.0, 0.0, 1.0, 1.0, 0.4, 0.6, 0.2)) == LeftWink
    ensures WhichEmoji(Face(0.0, 0.0, 1.0, 1.0, 0.4, 0.4, 0.2)) == ClosedEyeSmile
    ensures WhichEmoji(Face(0.0, 0.0, 1.0, 1.0, 0.51, 0.5, 0.16)) == RightWink
  {
  }

  // ---------------------------------------------------------------------
  // Resource switch (the switch in detectFacesAndOverlayEmoji)
  // ---------------------------------------------------------------------

  /** The drawable resources the switch loads. */
  datatype Drawable =
    | LeftwinkRes
    | RightwinkRes
    | SmileRes
    | FrownRes
    | LeftwinkfrownRes
    | RightwinkfrownRes
    | ClosedFrownRes
    | ClosedSmileRes

  /** The category each drawable pictures. */
  function Pictures(d: Drawable): Emoji {
    match d
    case LeftwinkRes       => LeftWink
    case RightwinkRes      => RightWink
    case SmileRes          => Smile
    case FrownRes          => Frown
    case LeftwinkfrownRes  => LeftWinkFrown
    case RightwinkfrownRes => RightWinkFrown
    case ClosedFrownRes    => ClosedEyeFrown
    case ClosedSmileRes    => ClosedEyeSmile
  }

  /** The switch: every category has an arm, so the `default` arm is never
      taken, and the arm loads the picture of that very category. */
  function ResourceFor(e: Emoji): (d: Drawable)
    ensures Pictures(d) == e
  {
    match e
    case LeftWink       => LeftwinkRes
    case RightWink      => RightwinkRes
    case Smile          => SmileRes
    case Frown          => FrownRes
    case LeftWinkFrown  => LeftwinkfrownRes
    case RightWinkFrown => RightwinkfrownRes
    case ClosedEyeFrown => ClosedFrownRes
    case ClosedEyeSmile => ClosedSmileRes
  }

  // ---------------------------------------------------------------------
  // Compositor (addBitmapToFace)
  // ---------------------------------------------------------------------

  /** A decoded emoji picture: which drawable it is and its size. */
  datatype EmojiBitmap = EmojiBitmap(art: Drawable, width: int, height: int)

  /** An emoji drawn onto a bitmap: the decoded picture and the face it was
      drawn over. Where it lands and at what size is its `Placement`. */
  datatype Overlay = Overlay(emoji: EmojiBitmap, face: Face)

  /** Where a scaled emoji is drawn: top-left position and scaled size. */
  datatype Rect = Rect(x: real, y: real, width: int, height: int)

  /** A bitmap: its dimensions and the emoji drawn on it, bottom to top. */
  datatype Bitmap = Bitmap(width: int, height: int, overlays: seq<Overlay>)

  /** Decoding is total, gives a picture of positive width, and gives the
      drawable that was asked for. */
  predicate ValidAssets(decode: Drawable -> EmojiBitmap) {
    forall d :: decode(d).art == d && decode(d).width > 0
  }

  /** newEmojiWidth: the face width times the scale factor, cast to `int`. */
  function EmojiWidth(faceWidth: real): (w: int)
    ensures IsInt(w)
    ensures 0.0 <= faceWidth ==> 0 <= w && w as real <= EmojiScaleFactor * faceWidth
    ensures 0.0 <= faceWidth && EmojiScaleFactor * faceWidth < IntMax as real + 1.0 ==>
              EmojiScaleFactor * faceWidth < w as real + 1.0
  {
    ToInt(faceWidth * EmojiScaleFactor)
  }

  /** Whether `emojiH * newEmojiWidth` is a non-negative product that fits
      in an `int`, so that Java computes it without wrapping around. */
  predicate Unwrapped(emoji: EmojiBitmap, newWidth: int) {
    0 <= emoji.height && 0 <= newWidth && emoji.height * newWidth <= IntMax
  }

  /** The height that keeps the picture's aspect ratio at the given width,
      in `int` arithmetic: when the product does not wrap around, the
      largest a with a / newWidth not above emojiH / emojiW. */
  function AspectHeight(emoji: EmojiBitmap, newWidth: int): (a: int)
    requires emoji.width > 0
    ensures IsInt(a)
    ensures Unwrapped(emoji, newWidth) ==>
              0 <= a <= emoji.height * newWidth
              && a * emoji.width <= emoji.height * newWidth < a * emoji.width + emoji.width
  {
    var a := Div(Wrap(emoji.height * newWidth), emoji.width);
    NoLargerThanMultiple(Abs(a), emoji.width);
    if Unwrapped(emoji, newWidth) then
      NonNegativeProduct(emoji.height, newWidth);
      a
    else
      a
  }

  /** A product of non-negative integers is non-negative. */
  lemma NonNegativeProduct(x: int, y: int)
    requires 0 <= x && 0 <= y
    ensures 0 <= x * y
  {
  }

  /** A non-negative integer is at most any positive multiple of itself. */
  lemma NoLargerThanMultiple(a: int, b: int)
    requires 0 <= a && 0 < b
    ensures a <= a * b
  {
  }

  /** newEmojiHeight: the aspect-preserving height scaled once more by the
      scale factor, so it never exceeds the aspect-preserving height and is
      the largest `int` not above 0.9 times it (for a non-negative height).
      With exact reals, `(int) (aspect * 0.9)` is `aspect * 9 / 10` in `int`
      arithmetic, rounded toward zero, and always fits in an `int`. */
  function EmojiHeight(emoji: EmojiBitmap, newWidth: int): (h: int)
    requires emoji.width > 0
    ensures IsInt(h)
    ensures Unwrapped(emoji, newWidth) ==>
              0 <= h <= AspectHeight(emoji, newWidth)
              && 10 * h <= 9 * AspectHeight(emoji, newWidth) < 10 * h + 10
  {
    Div(AspectHeight(emoji, newWidth) * 9, 10)
  }

  /** emojiPositionX: the horizontal centre of the emoji sits on the
      horizontal centre of the face, up to the half pixel the integer
      halving of the emoji width drops: the face centre minus the emoji's
      half width rounded toward zero. */
  function PositionX(face: Face, newWidth: int): (x: real)
    ensures var centre := face.x + face.width / 2.0;
            centre - 0.5 <= x + newWidth as real / 2.0 <= centre + 0.5
    ensures 0 <= newWidth ==> face.x + face.width / 2.0 <= x + newWidth as real / 2.0
    ensures var k := face.x + face.width / 2.0 - x;
            k == k.Floor as real
            && (0 <= newWidth ==> 2 * k.Floor <= newWidth < 2 * k.Floor + 2)
            && (newWidth <= 0 ==> 2 * k.Floor - 2 < newWidth <= 2 * k.Floor)
  {
    face.x + face.width / 2.0 - Div(newWidth, 2) as real
  }

  /** emojiPositionY: the point one third of the way down the emoji sits on
      the vertical centre of the face, up to the two thirds of a pixel the
      integer division by three drops: the face centre minus a third of
      the emoji's height rounded toward zero. */
  function PositionY(face: Face, newHeight: int): (y: real)
    ensures var centre := face.y + face.height / 2.0;
            centre - 2.0 / 3.0 <= y + newHeight as real / 3.0 <= centre + 2.0 / 3.0
    ensures 0 <= newHeight ==> face.y + face.height / 2.0 <= y + newHeight as real / 3.0
    ensures var k := face.y + face.height / 2.0 - y;
            k == k.Floor as real
            && (0 <= newHeight ==> 3 * k.Floor <= newHeight < 3 * k.Floor + 3)
            && (newHeight <= 0 ==> 3 * k.Floor - 3 < newHeight <= 3 * k.Floor)
  {
    face.y + face.height / 2.0 - Div(newHeight, 3) as real
  }

  /** The size and position addBitmapToFace gives the emoji over the face:
      0.9 of the face wide, at most its aspect-preserving height, centred
      horizontally on the face and a third of the way down on its centre.
      The first two clauses fix the rectangle (the offsets from the face
      centre are the whole-number quotients `PositionX` and `PositionY`
      state); the others restate, for the reader, what those members'
      contracts then give. */
  function Placement(emoji: EmojiBitmap, face: Face): (r: Rect)
    requires emoji.width > 0
    ensures r.width == EmojiWidth(face.width) && r.height == EmojiHeight(emoji, r.width)
    ensures r.x == PositionX(face, r.width) && r.y == PositionY(face, r.height)
    ensures 0.0 <= face.width ==> 0 <= r.width && r.width as real <= EmojiScaleFactor * face.width
    ensures Unwrapped(emoji, r.width) ==> 0 <= r.height <= AspectHeight(emoji, r.width)
    ensures var centre := face.x + face.width / 2.0;
            centre - 0.5 <= r.x + r.width as real / 2.0 <= centre + 0.5
    ensures var centre := face.y + face.height / 2.0;
            centre - 2.0 / 3.0 <= r.y + r.height as real / 3.0 <= centre + 2.0 / 3.0
  {
    var w := EmojiWidth(face.width);
    var h := EmojiHeight(emoji, w);
    Rect(PositionX(face, w), PositionY(face, h), w, h)
  }

  /** addBitmapToFace: a new bitmap of exactly the background's size that
      holds everything the background holds, with one emoji drawn on top. */
  function AddBitmapToFace(background: Bitmap, emoji: EmojiBitmap, face: Face): (r: Bitmap)
    requires emoji.width > 0
    ensures r.width == background.width && r.height == background.height
    ensures |r.overlays| == |background.overlays| + 1
    ensures background.overlays <= r.overlays
    ensures r.overlays[|background.overlays|] == Overlay(emoji, face)
  {
    Bitmap(background.width, background.height, background.overlays + [Overlay(emoji, face)])
  }

  /** The worked example: a 100 x 100 face at (50, 50) and a 200 x 100 emoji
      give a 90 x 40 emoji at (55, 87), shorter than the 45 that would keep
      the emoji's aspect ratio, because the scale factor is applied twice. */
  lemma CompositorExample()
    ensures var o := Placement(EmojiBitmap(SmileRes, 200, 100), Face(50.0, 50.0, 100.0, 100.0, 0.0, 0.0, 0.0));
            o.width == 90 && o.height == 40 && o.x == 55.0 && o.y == 87.0
            && AspectHeight(EmojiBitmap(SmileRes, 200, 100), o.width) == 45
  {
  }

  // ---------------------------------------------------------------------
  // Driver (detectFacesAndOverlayEmoji)
  // ---------------------------------------------------------------------

  /** The emoji one face receives: the picture of its category, drawn over
      that face. */
  function EmojiFor(face: Face, decode: Drawable -> EmojiBitmap): (o: Overlay)
    requires ValidAssets(decode)
    ensures o.face == face && o.emoji.width > 0
    ensures o.emoji.art == ResourceFor(WhichEmoji(face))
    ensures Pictures(o.emoji.art) == WhichEmoji(face)
  {
    Overlay(decode(ResourceFor(WhichEmoji(face))), face)
  }

  /** One iteration of the driver's loop: the face's emoji is added on top
      of the background, which keeps its size and contents. */
  function OverlayFace(background: Bitmap, face: Face, decode: Drawable -> EmojiBitmap): (r: Bitmap)
    requires ValidAssets(decode)
    ensures r.width == background.width && r.height == background.height
    ensures r.overlays == background.overlays + [EmojiFor(face, decode)]
  {
    AddBitmapToFace(background, decode(ResourceFor(WhichEmoji(face))), face)
  }

  /** The fold the driver performs: the faces overlaid in index order, each
      onto the previous result. The size never changes, nothing drawn
      earlier is lost, and there is one new emoji per face. */
  function OverlayAll(img: Bitmap, faces: seq<Face>, decode: Drawable -> EmojiBitmap): (r: Bitmap)
    requires ValidAssets(decode)
    ensures r.width == img.width && r.height == img.height
    ensures |r.overlays| == |img.overlays| + |faces|
    ensures img.overlays <= r.overlays
    decreases |faces|
  {
    if faces == [] then img
    else OverlayFace(OverlayAll(img, faces[..|faces| - 1], decode), faces[|faces| - 1], decode)
  }

  /** The emoji the fold adds for the i-th face is that face's emoji: the
      overlays stack in index order. */
  lemma {:induction false} OverlayAllAt(img: Bitmap, faces: seq<Face>, decode: Drawable -> EmojiBitmap, i: nat)
    requires ValidAssets(decode) && i < |faces|
    ensures |img.overlays| + i < |OverlayAll(img, faces, decode).overlays|
    ensures OverlayAll(img, faces, decode).overlays[|img.overlays| + i] == EmojiFor(faces[i], decode)
    decreases |faces|
  {
    var n := |faces| - 1;
    var before := OverlayAll(img, faces[..n], decode);
    if i < n {
      OverlayAllAt(img, faces[..n], decode, i);
      assert before.overlays <= OverlayAll(img, faces, decode).overlays;
    }
  }

  /** Overlaying a list of faces in two parts gives the same bitmap as
      overlaying it in one go. */
  lemma {:induction false} OverlayAllSplits(img: Bitmap, first: seq<Face>, rest: seq<Face>, decode: Drawable -> EmojiBitmap)
    requires ValidAssets(decode)
    ensures OverlayAll(img, first + rest, decode) == OverlayAll(OverlayAll(img, first, decode), rest, decode)
    decreases |rest|
  {
    if rest == [] {
      assert first + rest == first;
    } else {
      var n := |rest| - 1;
      assert (first + rest)[..|first + rest| - 1] == first + rest[..n];
      assert (first + rest)[|first + rest| - 1] == rest[n];
      OverlayAllSplits(img, first, rest[..n], decode);
    }
  }

  /** The detector's faces, read as the driver's loop reads them: by the
      keys 0, 1, ..., n - 1 in turn. */
  function FacesInOrder(faces: map<int, Face>, n: nat): (s: seq<Face>)
    requires forall i :: 0 <= i < n ==> i in faces
    ensures |s| == n
    ensures forall i :: 0 <= i < n ==> s[i] == faces[i]
  {
    if n == 0 then [] else FacesInOrder(faces, n - 1) + [faces[n - 1]]
  }

  /** Reading one more face in key order adds that face's emoji on top of
      the bitmap built so far. */
  lemma OverlayNextFace(img: Bitmap, faces: map<int, Face>, i: nat, decode: Drawable -> EmojiBitmap)
    requires ValidAssets(decode)
    requires forall j :: 0 <= j <= i ==> j in faces
    ensures OverlayAll(img, FacesInOrder(faces, i + 1), decode)
            == AddBitmapToFace(OverlayAll(img, FacesInOrder(faces, i), decode),
                               decode(ResourceFor(WhichEmoji(faces[i]))), faces[i])
  {
    assert FacesInOrder(faces, i + 1)[..i] == FacesInOrder(faces, i);
  }

  /** What the driver ends with: the composed bitmap, or the first key in
      0 .. size - 1 the detector's answer lacks, whose null face the
      classifier dereferences. */
  datatype Outcome = Drawn(image: Bitmap) | MissingFace(key: int)

  /** detectFacesAndOverlayEmoji, from the detector's answer on: reads the
      faces by the keys 0 .. size - 1 and overlays them one by one, raising
      the "no faces" notice exactly when there are none (the input then
      comes back unchanged). It completes exactly when every one of those
      keys holds a face; otherwise it stops at the first missing key. */
  method DetectFacesAndOverlayEmoji(img: Bitmap, faces: map<int, Face>, decode: Drawable -> EmojiBitmap)
    returns (result: Outcome, noFacesNotice: bool)
    requires ValidAssets(decode)
    ensures noFacesNotice <==> |faces| == 0
    ensures result.Drawn? <==> forall i :: 0 <= i < |faces| ==> i in faces
    ensures result.Drawn? ==> result.image == OverlayAll(img, FacesInOrder(faces, |faces|), decode)
    ensures result.MissingFace? ==>
              0 <= result.key < |faces| && result.key !in faces
              && forall i :: 0 <= i < result.key ==> i in faces
    ensures |faces| == 0 ==> result == Drawn(img)
  {
    var image := img;
    noFacesNotice := |faces| == 0;
    for i := 0 to |faces|
      invariant forall j :: 0 <= j < i ==> j in faces
      invariant image == OverlayAll(img, FacesInOrder(faces, i), decode)
    {
      if i !in faces {
        assert !(forall j :: 0 <= j < |faces| ==> j in faces) by {
          assert 0 <= i < |faces| && i !in faces;
        }
        result := MissingFace(i);
        return;
      }
      var emojiBitmap := decode(ResourceFor(WhichEmoji(faces[i])));
      OverlayNextFace(img, faces, i, decode);
      image := AddBitmapToFace(image, emojiBitmap, faces[i]);
    }
    result := Drawn(image);
  }
}
