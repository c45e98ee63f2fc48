/**
 * The string helpers of glow (libs/glow/src/glow/common/str_utils.hh):
 * suffix test, file ending, path prefix, and ASCII case conversion.
 * Strings are sequences of characters; `std::string::npos` is `None`.
 */
module StrUtils {
  import opened Wrappers

  /** `str.rfind(c)`: the position of the last `c` in `s`, if any. */
  function RFind(s: string, c: char): (r: Option<nat>)
    ensures r.Some? ==> r.value < |s| && s[r.value] == c && forall j | r.value < j < |s| :: s[j] != c
    ensures r.None? ==> forall j | 0 <= j < |s| :: s[j] != c
  {
    if |s| == 0 then None
    else if s[|s| - 1] == c then Some(|s| - 1)
    else RFind(s[..|s| - 1], c)
  }

  /** The position of a `c` with no `c` after it is what `rfind` finds. */
  lemma RFindIs(s: string, c: char, i: nat)
    requires i < |s| && s[i] == c && forall j | i < j < |s| :: s[j] != c
    ensures RFind(s, c) == Some(i)
  {
  }

  /** `rfind` with `npos` replaced by `0`, as both `fileEndingOf` and `pathOf` do. */
  function RFindOrZero(s: string, c: char): nat
  {
    match RFind(s, c)
    case Some(i) => i
    case None => 0
  }

  /** A path separator: `'/'` or `'\\'`. */
  predicate IsSeparator(c: char)
  {
    c == '/' || c == '\\'
  }

  /** The larger of the last `'/'` and the last `'\\'` position, `0` for none. */
  function LastSeparator(s: string): nat
  {
    var a := RFindOrZero(s, '/');
    var b := RFindOrZero(s, '\\');
    if a < b then b else a
  }

  /** `LastSeparator` is `0` or the position of a separator with none after it. */
  lemma LastSeparatorIs(s: string)
    ensures LastSeparator(s) == 0 || (LastSeparator(s) < |s| && IsSeparator(s[LastSeparator(s)]))
    ensures forall j | LastSeparator(s) < j < |s| :: !IsSeparator(s[j])
    ensures LastSeparator(s) == 0 <==> forall j | 0 < j < |s| :: !IsSeparator(s[j])
  {
    var a, b := RFind(s, '/'), RFind(s, '\\');
  }

  // ---- endswith -------------------------------------------------------------

  /** `endswith(str, suffix)` */
  function EndsWith(s: string, suffix: string): bool
  {
    |s| >= |suffix| && s[|s| - |suffix|..] == suffix
  }

  /** `s` ends with `suffix` exactly when `s` is some string followed by `suffix`. */
  lemma EndsWithIff(s: string, suffix: string)
    ensures EndsWith(s, suffix) <==> exists p: string :: p + suffix == s
    ensures EndsWith(s, [])
    ensures EndsWith(s + suffix, suffix)
  {
    if EndsWith(s, suffix) {
      var p := s[..|s| - |suffix|];
      assert p + suffix == s;
    }
    if exists p: string :: p + suffix == s {
      var p: string :| p + suffix == s;
      assert s[|s| - |suffix|..] == suffix;
    }
    assert (s + suffix)[|s|..] == suffix;
    assert s[|s|..] == [];
  }

  // ---- fileEndingOf ---------------------------------------------------------

  /** `fileEndingOf(str)`: the last `.`-ending of the file name, dot included, or `""`. */
  function FileEndingOf(s: string): string
  {
    var minPos := LastSeparator(s);
    var dotPos := RFindOrZero(s, '.');
    if dotPos <= minPos then "" else s[dotPos..]
  }

  /** `s` has a dot after index 0 with no separator from it on: the file name has an ending. */
  predicate HasEnding(s: string)
  {
    exists i | 0 < i < |s| :: s[i] == '.' && forall j | i <= j < |s| :: !IsSeparator(s[j])
  }

  /**
   * The ending is empty or a suffix of `s` that starts with the dot and
   * holds no other dot and no separator; it is non-empty exactly when the
   * file name has a dot past index 0.
   */
  lemma FileEndingShape(s: string)
    ensures var r := FileEndingOf(s);
            r == "" || (EndsWith(s, r) && r[0] == '.' && forall k | 1 <= k < |r| :: r[k] != '.' && !IsSeparator(r[k]))
    ensures FileEndingOf(s) != "" <==> HasEnding(s)
  {
    LastSeparatorIs(s);
    var minPos, dotPos := LastSeparator(s), RFindOrZero(s, '.');
    var r := FileEndingOf(s);
    if dotPos > minPos {
      assert r == s[dotPos..] && |r| > 0;
      assert EndsWith(s, r);
      forall k | 1 <= k < |r|
        ensures r[k] != '.' && !IsSeparator(r[k])
      {
        assert r[k] == s[dotPos + k];
      }
      assert 0 < dotPos < |s| && s[dotPos] == '.';
    } else {
      assert r == "";
      forall i | 0 < i < |s| && s[i] == '.'
        ensures exists j | i <= j < |s| :: IsSeparator(s[j])
      {
        assert i <= dotPos <= minPos;
        assert IsSeparator(s[minPos]);
      }
    }
  }

  /** The example of the documentation, and a dot at index 0 that starts no ending. */
  lemma FileEndingExamples()
    ensures FileEndingOf("/path/to/myfile.foo.png") == ".png"
    ensures FileEndingOf(".png") == ""
    ensures FileEndingOf("dir.d/file") == ""
  {
    var s := "/path/to/myfile.foo.png";
    RFindIs(s, '.', 19);
    RFindIs(s, '/', 8);
    assert forall j | 0 <= j < |s| :: s[j] != '\\';
    RFindIs(".png", '.', 0);
    var t := "dir.d/file";
    RFindIs(t, '/', 5);
    RFindIs(t, '.', 3);
  }

  // ---- pathOf ---------------------------------------------------------------

  /** `pathOf(filename)`: the directory part without the trailing separator, or `""`. */
  function PathOf(s: string): string
  {
    var minPos := LastSeparator(s);
    if minPos == 0 then "" else s[..minPos]
  }

  /**
   * The path is empty when `s` has no separator past index 0; otherwise
   * it is the prefix of `s` up to its last separator, which is followed
   * by no other.
   */
  lemma PathOfShape(s: string)
    ensures PathOf(s) == "" <==> forall j | 0 < j < |s| :: !IsSeparator(s[j])
    ensures PathOf(s) != "" ==>
              |PathOf(s)| < |s| && PathOf(s) == s[..|PathOf(s)|] && IsSeparator(s[|PathOf(s)|])
              && forall j | |PathOf(s)| < j < |s| :: !IsSeparator(s[j])
  {
    LastSeparatorIs(s);
  }

  lemma PathOfExamples()
    ensures PathOf("/path/to/myfile.png") == "/path/to"
    ensures PathOf("/file") == ""
    ensures PathOf("file") == ""
  {
    var s := "/path/to/myfile.png";
    RFindIs(s, '/', 8);
    assert forall j | 0 <= j < |s| :: s[j] != '\\';
    RFindIs("/file", '/', 0);
  }

  // ---- toLower / toUpper ----------------------------------------------------

  /** `::tolower` in the "C" locale: ASCII upper-case letters become lower-case, nothing else changes. */
  function LowerChar(c: char): char
  {
    if 'A' <= c <= 'Z' then (c as int + 32) as char else c
  }

  /** `::toupper` in the "C" locale. */
  function UpperChar(c: char): char
  {
    if 'a' <= c <= 'z' then (c as int - 32) as char else c
  }

  /** `s` with `::tolower` applied to every character. */
  function Lowered(s: string): (r: string)
    ensures |r| == |s|
  {
    seq(|s|, i requires 0 <= i < |s| => LowerChar(s[i]))
  }

  /** `s` with `::toupper` applied to every character. */
  function Uppered(s: string): (r: string)
    ensures |r| == |s|
  {
    seq(|s|, i requires 0 <= i < |s| => UpperChar(s[i]))
  }

  /** `toLower(str)`: copies the string and rewrites the copy character by character. */
  method ToLower(str: string) returns (data: string)
    ensures data == Lowered(str)
  {
    data := str;
    for i := 0 to |data|
      invariant |data| == |str|
      invariant forall k | 0 <= k < i :: data[k] == LowerChar(str[k])
      invariant forall k | i <= k < |data| :: data[k] == str[k]
    {
      data := data[i := LowerChar(data[i])];
    }
  }

  /** `toUpper(str)`: copies the string and rewrites the copy character by character. */
  method ToUpper(str: string) returns (data: string)
    ensures data == Uppered(str)
  {
    data := str;
    for i := 0 to |data|
      invariant |data| == |str|
      invariant forall k | 0 <= k < i :: data[k] == UpperChar(str[k])
      invariant forall k | i <= k < |data| :: data[k] == str[k]
    {
      data := data[i := UpperChar(data[i])];
    }
  }

  /**
   * Case conversion keeps the length, changes only letters, is idempotent,
   * and lower-casing forgets a previous upper-casing (and back).
   */
  lemma CaseConversion(s: string)
    ensures |Lowered(s)| == |s| && |Uppered(s)| == |s|
    ensures Lowered(Lowered(s)) == Lowered(s)
    ensures Uppered(Uppered(s)) == Uppered(s)
    ensures Lowered(Uppered(s)) == Lowered(s)
    ensures Uppered(Lowered(s)) == Uppered(s)
    ensures forall i | 0 <= i < |s| :: Lowered(s)[i] != s[i] ==> 'A' <= s[i] <= 'Z'
    ensures forall i | 0 <= i < |s| :: !('A' <= Lowered(s)[i] <= 'Z') && !('a' <= Uppered(s)[i] <= 'z')
  {
  }
}
