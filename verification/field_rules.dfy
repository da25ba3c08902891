/** Field-level rules the models declare: image extensions, slug
    characters, text lengths, and the "derive a slug only when absent" rule
    of every `save` override. */
module FieldRules {
  import opened Common

  /** An uploaded image as far as the model needs it: the URL it is served
      from and the extension of its file name. */
  datatype ImageFile = ImageFile(url: string, extension: string)

  /** The extensions `FileExtensionValidator` accepts for post and profile images. */
  const AllowedImageExtensions: set<string> := {"png", "jpg", "webp", "jpeg"}

  /** ASCII lower-casing of the file's extension. The validator uses
      Python's Unicode-aware `str.lower`, but the only non-ASCII capitals it
      lowers to ASCII letters (the Kelvin sign to `k`, the dotted capital I
      to `i` plus a combining dot) cannot spell an allowed extension, so both
      give the same verdict on them. */
  function LowerChar(c: char): char {
    if 'A' <= c <= 'Z' then (c as int + 32) as char else c
  }

  function LowerAscii(s: string): string {
    seq(|s|, i requires 0 <= i < |s| => LowerChar(s[i]))
  }

  /** Two strings that differ at most in the case of ASCII letters. */
  predicate SameIgnoringCase(x: string, y: string) {
    |x| == |y| && forall k :: 0 <= k < |x| ==> LowerChar(x[k]) == LowerChar(y[k])
  }

  /** The index of the last `@` in `s`, if it has one. */
  function LastAt(s: string): (r: Option<nat>)
    ensures r.Some? ==> r.value < |s| && s[r.value] == '@' && forall j :: r.value < j < |s| ==> s[j] != '@'
    ensures r.None? ==> forall j :: 0 <= j < |s| ==> s[j] != '@'
  {
    if s == [] then None
    else if s[|s| - 1] == '@' then Some(|s| - 1)
    else LastAt(s[..|s| - 1])
  }

  /** Two strings with `@` at the same positions have their last `@` at the same place. */
  lemma LastAtSamePositions(x: string, y: string)
    requires |x| == |y| && forall j :: 0 <= j < |x| ==> (x[j] == '@' <==> y[j] == '@')
    ensures LastAt(x) == LastAt(y)
  {
    var a, b := LastAt(x), LastAt(y);
    if a.Some? && b.Some? {
      assert x[b.value] == '@' && y[a.value] == '@';
    }
  }

  /** The framework's `normalize_email`, which `AbstractUser.clean` applies
      before a user row is saved: the domain, after the last `@`, is
      lower-cased, and an address without `@` is kept as it is. The result
      differs from the address only in the case of the domain's letters. */
  function NormalizeEmail(email: string): (r: string)
    ensures |r| == |email| && SameIgnoringCase(r, email)
    ensures LastAt(r) == LastAt(email)
    ensures forall i :: 0 <= i < |email| && (LastAt(email).None? || i <= LastAt(email).value) ==> r[i] == email[i]
    ensures forall i :: 0 <= i < |email| && LastAt(email).Some? && LastAt(email).value < i ==> !('A' <= r[i] <= 'Z')
  {
    match LastAt(email)
    case None => email
    case Some(k) =>
      var r := email[..k + 1] + LowerAscii(email[k + 1..]);
      assert forall i :: 0 <= i < |email| ==> r[i] == if i <= k then email[i] else LowerChar(email[i]);
      LastAtSamePositions(r, email);
      r
  }

  /** Normalising an address twice is normalising it once. */
  lemma NormalizeEmailIdempotent(email: string)
    ensures NormalizeEmail(NormalizeEmail(email)) == NormalizeEmail(email)
  {
    var r := NormalizeEmail(email);
    var rr := NormalizeEmail(r);
    assert forall i :: 0 <= i < |r| ==> rr[i] == r[i];
  }

  /** No image passes; an image passes when its lower-cased extension is allowed. */
  predicate ValidImage(img: Option<ImageFile>) {
    img.None? || LowerAscii(img.value.extension) in AllowedImageExtensions
  }

  lemma LowerAsciiEqualIff(x: string, y: string)
    ensures LowerAscii(x) == LowerAscii(y) <==> SameIgnoringCase(x, y)
  {
    if SameIgnoringCase(x, y) {
      assert forall k :: 0 <= k < |x| ==> LowerAscii(x)[k] == LowerAscii(y)[k];
    }
    if LowerAscii(x) == LowerAscii(y) {
      assert forall k :: 0 <= k < |x| ==> LowerAscii(x)[k] == LowerChar(x[k]);
    }
  }

  /** An image is accepted exactly when its extension is png, jpg, webp or
      jpeg up to the case of its letters. */
  lemma ImageExtensionAccepted(img: ImageFile)
    ensures ValidImage(Some(img)) <==>
      (|| SameIgnoringCase(img.extension, "png")
       || SameIgnoringCase(img.extension, "jpg")
       || SameIgnoringCase(img.extension, "webp")
       || SameIgnoringCase(img.extension, "jpeg"))
  {
    var e := img.extension;
    assert LowerAscii("png") == "png";
    assert LowerAscii("jpg") == "jpg";
    assert LowerAscii("webp") == "webp";
    assert LowerAscii("jpeg") == "jpeg";
    LowerAsciiEqualIff(e, "png");
    LowerAsciiEqualIff(e, "jpg");
    LowerAsciiEqualIff(e, "webp");
    LowerAsciiEqualIff(e, "jpeg");
  }

  /** The characters `validate_slug` admits: ASCII letters, digits, `-` and `_`. */
  predicate SlugChar(c: char) {
    ('a' <= c <= 'z') || ('A' <= c <= 'Z') || ('0' <= c <= '9') || c == '-' || c == '_'
  }

  /** A slug a form may submit: blank, or slug characters only, within `maxLength`. */
  predicate SlugInput(slug: string, maxLength: nat) {
    |slug| <= maxLength && forall i :: 0 <= i < |slug| ==> SlugChar(slug[i])
  }

  /** A required text field: present and within its `max_length`. */
  predicate RequiredText(s: string, maxLength: nat) {
    0 < |s| <= maxLength
  }

  /** `save`: a stored slug is kept; an empty one takes `derived`, the value
      the slug generator would return for this row. */
  function SlugOnSave(current: string, derived: string): (r: string)
    ensures current != [] ==> r == current
    ensures current == [] ==> r == derived
  {
    if current == [] then derived else current
  }

  /** Once a save has given a row a non-empty slug, no later save changes it,
      whatever the slug generator would return then. */
  lemma SlugAssignedOnce(current: string, first: string, later: string)
    requires first != []
    ensures SlugOnSave(SlugOnSave(current, first), later) == SlugOnSave(current, first)
    ensures SlugOnSave(current, first) != []
  {
  }
}
