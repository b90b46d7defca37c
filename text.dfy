/**
 * The two Python string operations the dictionary loader relies on:
 * `str.strip()` with no argument and `str.split(sep)` with a one-character
 * separator, over strings modelled as `seq<char>`.
 */
module Text {

  /** Python's `str.isspace()` for one character: the characters that
      `str.strip()` removes when it is given no argument. */
  predicate IsSpace(c: char)
  {
    ('\U{0009}' <= c <= '\U{000D}') || ('\U{001C}' <= c <= '\U{0020}')
    || c == '\U{0085}' || c == '\U{00A0}' || c == '\U{1680}'
    || ('\U{2000}' <= c <= '\U{200A}') || c == '\U{2028}' || c == '\U{2029}'
    || c == '\U{202F}' || c == '\U{205F}' || c == '\U{3000}'
  }

  /** The position of the first non-whitespace character of `s` at or
      after `i`, or `|s|` if there is none. */
  function SkipSpace(s: string, i: nat): (k: nat)
    requires i <= |s|
    ensures i <= k <= |s|
    ensures forall m :: i <= m < k ==> IsSpace(s[m])
    ensures k < |s| ==> !IsSpace(s[k])
    decreases |s| - i
  {
    if i < |s| && IsSpace(s[i]) then SkipSpace(s, i + 1) else i
  }

  /** The end of `s[lo..j]` once its trailing whitespace is dropped. */
  function SkipSpaceBack(s: string, lo: nat, j: nat): (k: nat)
    requires lo <= j <= |s|
    ensures lo <= k <= j
    ensures forall m :: k <= m < j ==> IsSpace(s[m])
    ensures k > lo ==> !IsSpace(s[k - 1])
  {
    if j > lo && IsSpace(s[j - 1]) then SkipSpaceBack(s, lo, j - 1) else j
  }

  /** `s.strip()`: `s` without its leading and trailing whitespace. */
  function Strip(s: string): (stripped: string)
  {
    var i := SkipSpace(s, 0);
    var j := SkipSpaceBack(s, i, |s|);
    s[i..j]
  }

  /** The stripped string is a slice `s[i..j]` with only whitespace outside
      it, and it neither starts nor ends with whitespace. */
  lemma StripSpec(s: string)
    ensures exists i, j ::
              && 0 <= i <= j <= |s| && Strip(s) == s[i..j]
              && (forall m :: 0 <= m < i ==> IsSpace(s[m]))
              && (forall m :: j <= m < |s| ==> IsSpace(s[m]))
    ensures NoOuterSpace(Strip(s))
  {
    var i := SkipSpace(s, 0);
    var j := SkipSpaceBack(s, i, |s|);
    assert Strip(s) == s[i..j];
  }

  /** `s` neither starts nor ends with whitespace. */
  predicate NoOuterSpace(s: string)
  {
    s == [] || (!IsSpace(s[0]) && !IsSpace(s[|s| - 1]))
  }

  /** A string that neither starts nor ends with whitespace is its own
      strip; in particular stripping twice is stripping once. */
  lemma StripFixed(s: string)
    requires NoOuterSpace(s)
    ensures Strip(s) == s
  {
    assert SkipSpace(s, 0) == 0;
    assert SkipSpaceBack(s, 0, |s|) == |s|;
  }

  lemma StripIdempotent(s: string)
    ensures Strip(Strip(s)) == Strip(s)
  {
    StripSpec(s);
    StripFixed(Strip(s));
  }

  /** Number of occurrences of `c` in `s`. */
  function Occurrences(s: string, c: char): (n: nat)
    ensures n == 0 <==> c !in s
  {
    if s == [] then 0 else (if s[0] == c then 1 else 0) + Occurrences(s[1..], c)
  }

  /** `s.split(sep)`: the fields between occurrences of `sep`, empty fields
      kept. There is always one field more than there are separators. */
  function Split(s: string, sep: char): (fields: seq<string>)
    ensures |fields| == Occurrences(s, sep) + 1
  {
    if s == [] then [[]]
    else
      var rest := Split(s[1..], sep);
      assert s == [s[0]] + s[1..];
      if s[0] == sep then [[]] + rest
      else [[s[0]] + rest[0]] + rest[1..]
  }

  /** No field of a split contains the separator, and the first field is
      the part of `s` before its first separator. */
  lemma SplitFields(s: string, sep: char)
    ensures forall i :: 0 <= i < |Split(s, sep)| ==> sep !in Split(s, sep)[i]
    ensures var f := Split(s, sep)[0]; |f| <= |s| && f == s[..|f|] && (|f| < |s| ==> s[|f|] == sep)
  {
    FieldsWithoutSeparator(s, sep);
    FirstFieldPrefix(s, sep);
  }

  lemma {:induction false} FieldsWithoutSeparator(s: string, sep: char)
    ensures forall i :: 0 <= i < |Split(s, sep)| ==> sep !in Split(s, sep)[i]
  {
    if s != [] {
      FieldsWithoutSeparator(s[1..], sep);
      var rest := Split(s[1..], sep);
      var fields := Split(s, sep);
      if s[0] == sep {
        assert fields == [[]] + rest;
      } else {
        assert fields == [[s[0]] + rest[0]] + rest[1..];
      }
    }
  }

  lemma {:induction false} FirstFieldPrefix(s: string, sep: char)
    ensures var f := Split(s, sep)[0]; |f| <= |s| && f == s[..|f|] && (|f| < |s| ==> s[|f|] == sep)
  {
    if s != [] && s[0] != sep {
      FirstFieldPrefix(s[1..], sep);
      var g := Split(s[1..], sep)[0];
      assert Split(s, sep)[0] == [s[0]] + g;
      assert s[..|g| + 1] == [s[0]] + s[1..][..|g|];
    }
  }

  /** `sep.join(fields)`. */
  function Join(fields: seq<string>, sep: char): (s: string)
  {
    if |fields| == 0 then []
    else if |fields| == 1 then fields[0]
    else fields[0] + [sep] + Join(fields[1..], sep)
  }

  /** Joining the fields of a split with the same separator gives the
      original string back. */
  lemma {:induction false} JoinSplit(s: string, sep: char)
    ensures Join(Split(s, sep), sep) == s
  {
    if s != [] {
      var rest := Split(s[1..], sep);
      JoinSplit(s[1..], sep);
      if s[0] == sep {
        assert Split(s, sep) == [[]] + rest;
        assert Join([[]] + rest, sep) == [sep] + Join(rest, sep);
      } else {
        assert Split(s, sep) == [[s[0]] + rest[0]] + rest[1..];
        JoinFirstChar(s[0], rest, sep);
      }
    }
    assert s == [] ==> s == Join([[]], sep);
  }

  /** A character put in front of the first field of a join ends up in
      front of the joined string. */
  lemma JoinFirstChar(c: char, fields: seq<string>, sep: char)
    requires |fields| >= 1
    ensures Join([[c] + fields[0]] + fields[1..], sep) == [c] + Join(fields, sep)
  {
    var fields' := [[c] + fields[0]] + fields[1..];
    assert fields'[1..] == fields[1..];
  }

  /** A separator-free string splits into itself alone. */
  lemma {:induction false} SplitNoSeparator(f: string, sep: char)
    requires sep !in f
    ensures Split(f, sep) == [f]
  {
    if f != [] {
      SplitNoSeparator(f[1..], sep);
      assert f == [f[0]] + f[1..];
    }
  }

  /** A separator-free field followed by a separator splits off as the
      first field. */
  lemma {:induction false} SplitFirstField(f: string, rest: string, sep: char)
    requires sep !in f
    ensures Split(f + [sep] + rest, sep) == [f] + Split(rest, sep)
  {
    var s := f + [sep] + rest;
    if f != [] {
      assert s[0] == f[0] != sep;
      assert s[1..] == f[1..] + [sep] + rest;
      SplitFirstField(f[1..], rest, sep);
      var r := Split(s[1..], sep);
      assert r[0] == f[1..] && r[1..] == Split(rest, sep);
      assert [f[0]] + f[1..] == f;
    } else {
      assert s[0] == sep;
      assert s[1..] == rest;
    }
  }

  /** Splitting a join of separator-free fields gives the fields back. */
  lemma {:induction false} SplitJoin(fields: seq<string>, sep: char)
    requires |fields| >= 1
    requires forall i :: 0 <= i < |fields| ==> sep !in fields[i]
    ensures Split(Join(fields, sep), sep) == fields
  {
    if |fields| == 1 {
      SplitNoSeparator(fields[0], sep);
    } else {
      SplitJoin(fields[1..], sep);
      SplitFirstField(fields[0], Join(fields[1..], sep), sep);
      assert fields == [fields[0]] + fields[1..];
    }
  }
}
