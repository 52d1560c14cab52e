/**
 * lib/faculty-helpers.js: the traffic-light colour of a 1–5 score and the photo shown for a
 * faculty, with a generated avatar when the photo is missing.
 */
module FacultyHelpers {
  import opened Wrappers
  import opened JsStrings

  const GrayClass := "text-gray-600 dark:text-gray-400"
  const GreenClass := "text-green-700 dark:text-green-400"
  const AmberClass := "text-amber-600 dark:text-amber-400"
  const RedClass := "text-red-600 dark:text-red-400"

  /**
   * `getScoreColorClass(score)`. `None` stands for `null`, `undefined` and any value whose
   * `typeof` is not "number".
   */
  function ScoreColorClass(score: Option<real>): string {
    if score.None? then GrayClass
    else if score.value >= 4.0 then GreenClass
    else if score.value >= 2.5 then AmberClass
    else RedClass
  }

  /** The order of the colours from worst to best score; gray has no place in it. */
  function ColorRank(cls: string): int {
    if cls == RedClass then 0 else if cls == AmberClass then 1 else if cls == GreenClass then 2 else -1
  }

  /** The bands: at least 4 is green, from 2.5 below 4 amber, below 2.5 red, and no score gray. */
  lemma ScoreBands(score: Option<real>)
    ensures ScoreColorClass(score) == GrayClass <==> score.None?
    ensures score.Some? ==> (ScoreColorClass(score) == GreenClass <==> score.value >= 4.0)
    ensures score.Some? ==> (ScoreColorClass(score) == AmberClass <==> 2.5 <= score.value < 4.0)
    ensures score.Some? ==> (ScoreColorClass(score) == RedClass <==> score.value < 2.5)
  {
  }

  /** A higher score never gets a worse colour. */
  lemma ScoreColorMonotone(a: real, b: real)
    requires a <= b
    ensures 0 <= ColorRank(ScoreColorClass(Some(a))) <= ColorRank(ScoreColorClass(Some(b)))
  {
  }

  const AvatarPrefix := "https://ui-avatars.com/api/?name="
  const AvatarSuffix := "&size=256&background=94a3b8&color=fff"

  /** `(faculty?.name || "?").trim()`: a missing or empty name becomes "?". */
  function AvatarName(name: Option<string>): string {
    Trim(if name.None? || name.value == "" then "?" else name.value)
  }

  /** The avatar URL for a name; `encode` is `encodeURIComponent`. */
  function AvatarUrl(name: string, encode: string -> string): string {
    AvatarPrefix + encode(name) + AvatarSuffix
  }

  /**
   * `getFacultyPhoto(faculty)` for a faculty with the given `photo` and `name` fields: the trimmed
   * photo when it is not blank, otherwise the avatar of the trimmed name.
   */
  function FacultyPhoto(photo: Option<string>, name: Option<string>, encode: string -> string): string {
    if photo.Some? && Trim(photo.value) != "" then Trim(photo.value)
    else AvatarUrl(AvatarName(name), encode)
  }

  /** A photo that is not blank is returned trimmed, and trimming it again changes nothing. */
  lemma PhotoPreferred(photo: string, name: Option<string>, encode: string -> string)
    requires Trim(photo) != ""
    ensures FacultyPhoto(Some(photo), name, encode) == Trim(photo)
    ensures Trim(FacultyPhoto(Some(photo), name, encode)) == FacultyPhoto(Some(photo), name, encode)
  {
    TrimIdempotent(photo);
  }

  /**
   * Without a usable photo the result is an avatar URL: the fixed prefix, the encoded name, the
   * fixed options. The name is "?" for a missing or empty name, and a name of white space only
   * gives the empty name.
   */
  lemma AvatarFallback(photo: Option<string>, name: Option<string>, encode: string -> string)
    requires photo.None? || Trim(photo.value) == ""
    ensures var url := FacultyPhoto(photo, name, encode);
            && |url| == |AvatarPrefix| + |encode(AvatarName(name))| + |AvatarSuffix|
            && url[..|AvatarPrefix|] == AvatarPrefix
            && url[|AvatarPrefix|..|url| - |AvatarSuffix|] == encode(AvatarName(name))
            && url[|url| - |AvatarSuffix|..] == AvatarSuffix
    ensures name.None? || name == Some("") ==> AvatarName(name) == "?"
    ensures name.Some? && name.value != "" && !HasNonWhitespace(name.value) ==> AvatarName(name) == ""
    ensures Trim(AvatarName(name)) == AvatarName(name)
  {
    var url := FacultyPhoto(photo, name, encode);
    var e := encode(AvatarName(name));
    assert url == AvatarPrefix + e + AvatarSuffix;
    assert url[..|AvatarPrefix|] == AvatarPrefix;
    assert url[|AvatarPrefix|..|url| - |AvatarSuffix|] == e;
    assert url[|url| - |AvatarSuffix|..] == AvatarSuffix;
    if name.None? || name.value == "" {
      TrimNoWhitespace("?");
    } else if !HasNonWhitespace(name.value) {
      WhitespaceOnlyTrim(name.value);
    }
    TrimIdempotent(if name.None? || name.value == "" then "?" else name.value);
  }

  /** The string has a character that is not white space. */
  predicate HasNonWhitespace(s: string) {
    exists i :: 0 <= i < |s| && !IsWhitespace(s[i])
  }

  /** A string of white space only trims to the empty string. */
  lemma {:induction false} WhitespaceOnlyTrim(s: string)
    requires !HasNonWhitespace(s)
    ensures Trim(s) == ""
  {
    if s != [] {
      assert !HasNonWhitespace(s[1..]) by {
        forall i | 0 <= i < |s[1..]| ensures IsWhitespace(s[1..][i]) {
          assert s[1..][i] == s[i + 1];
        }
      }
      WhitespaceOnlyTrim(s[1..]);
    }
  }
}
