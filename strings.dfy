/**
 * The JavaScript string operations the checkout functions rely on:
 * `toUpperCase` (restricted to ASCII letters), `startsWith` and `split`
 * with a one-character separator, together with `join`, its inverse.
 */
module Strings {

  predicate IsAsciiLower(c: char) { 'a' <= c <= 'z' }

  predicate IsAsciiUpper(c: char) { 'A' <= c <= 'Z' }

  /** The ASCII upper-case form of a character; every other character is unchanged. */
  function UpperChar(c: char): char {
    if IsAsciiLower(c) then (c as int - 32) as char else c
  }

  /** The ASCII lower-case form of a character; every other character is unchanged. */
  function LowerChar(c: char): char {
    if IsAsciiUpper(c) then (c as int + 32) as char else c
  }

  /** `s.toUpperCase()` for ASCII text: upper-cases each character, in place. */
  function ToUpper(s: string): (r: string)
    ensures |r| == |s|
    ensures forall i :: 0 <= i < |s| ==> r[i] == UpperChar(s[i])
  {
    if s == [] then [] else [UpperChar(s[0])] + ToUpper(s[1..])
  }

  /**
   * `b` is `a` with the letter case of some characters changed: each character
   * is kept, upper-cased or lower-cased.
   */
  predicate CaseVariant(a: string, b: string) {
    |a| == |b| &&
    forall i :: 0 <= i < |a| ==> b[i] == a[i] || b[i] == UpperChar(a[i]) || b[i] == LowerChar(a[i])
  }

  /** Changing letter case does not change the upper-cased text. */
  lemma CaseVariantSameUpper(a: string, b: string)
    requires CaseVariant(a, b)
    ensures ToUpper(a) == ToUpper(b)
  {
    forall i | 0 <= i < |a|
      ensures ToUpper(a)[i] == ToUpper(b)[i]
    {
      assert b[i] == a[i] || b[i] == UpperChar(a[i]) || b[i] == LowerChar(a[i]);
    }
  }

  /** `s.startsWith(prefix)`. */
  predicate StartsWith(s: string, prefix: string) {
    |prefix| <= |s| && s[..|prefix|] == prefix
  }

  /** `s` starts with `prefix` exactly when it is `prefix` followed by some text. */
  lemma StartsWithAppend(s: string, prefix: string)
    ensures StartsWith(s, prefix) <==> exists t :: s == prefix + t
  {
    if StartsWith(s, prefix) {
      assert s == prefix + s[|prefix|..];
    }
  }

  /** `parts.join(sep)`: the parts with one separator between neighbours. */
  function Join(parts: seq<string>, sep: char): string
  {
    if |parts| == 0 then ""
    else if |parts| == 1 then parts[0]
    else parts[0] + [sep] + Join(parts[1..], sep)
  }

  /**
   * `s.split(sep)` for a one-character separator: the maximal separator-free
   * pieces of `s`, in order. There is always at least one piece (the empty
   * string splits into `[""]`), no piece holds the separator, and joining the
   * pieces gives back `s`.
   */
  function Split(s: string, sep: char): (parts: seq<string>)
    ensures |parts| >= 1
    ensures forall i :: 0 <= i < |parts| ==> sep !in parts[i]
    ensures Join(parts, sep) == s
    decreases |s|
  {
    if s == [] then [""]
    else
      var rest := Split(s[1..], sep);
      if s[0] == sep then
        assert ([""] + rest)[1..] == rest;
        [""] + rest
      else
        var parts := [[s[0]] + rest[0]] + rest[1..];
        assert parts[1..] == rest[1..];
        assert |rest| >= 2 ==> Join(rest, sep) == rest[0] + [sep] + Join(rest[1..], sep);
        assert s == [s[0]] + s[1..];
        parts
  }

  /** Splitting `p + t` where `p` holds no separator glues `p` to the first piece of `t`. */
  lemma {:induction false} SplitSeparatorFreePrefix(p: string, t: string, sep: char)
    requires sep !in p
    ensures Split(p + t, sep) == [p + Split(t, sep)[0]] + Split(t, sep)[1..]
    decreases |p|
  {
    var r := Split(t, sep);
    if p == [] {
      assert p + t == t;
      assert p + r[0] == r[0];
      assert [r[0]] + r[1..] == r;
    } else {
      var s := p + t;
      assert s[0] == p[0] && s[1..] == p[1..] + t;
      SplitSeparatorFreePrefix(p[1..], t, sep);
      var rest := Split(s[1..], sep);
      assert rest == [p[1..] + r[0]] + r[1..];
      assert Split(s, sep) == [[s[0]] + rest[0]] + rest[1..];
      assert [s[0]] + rest[0] == p + r[0];
    }
  }

  /** Split undoes Join: separator-free parts are recovered exactly. */
  lemma {:induction false} SplitJoin(parts: seq<string>, sep: char)
    requires |parts| >= 1
    requires forall i :: 0 <= i < |parts| ==> sep !in parts[i]
    ensures Split(Join(parts, sep), sep) == parts
  {
    if |parts| == 1 {
      SplitSeparatorFreePrefix(parts[0], "", sep);
      assert parts[0] + "" == parts[0];
      assert Split("", sep) == [""];
      assert [parts[0] + ""] == parts;
    } else {
      var tail := Join(parts[1..], sep);
      SplitJoin(parts[1..], sep);
      SplitAfterSeparatorFreePart(parts[0], tail, sep);
      assert Join(parts, sep) == parts[0] + ([sep] + tail);
      assert [parts[0]] + parts[1..] == parts;
    }
  }

  /** A separator-free part, a separator, then more text: the part is the first piece. */
  lemma SplitAfterSeparatorFreePart(p: string, t: string, sep: char)
    requires sep !in p
    ensures Split(p + ([sep] + t), sep) == [p] + Split(t, sep)
  {
    var u := [sep] + t;
    SplitLeadingSeparator(t, sep);
    SplitSeparatorFreePrefix(p, u, sep);
    var r := Split(u, sep);
    assert r[0] == "" && r[1..] == Split(t, sep);
    assert p + r[0] == p;
  }

  /** A leading separator starts with an empty piece. */
  lemma SplitLeadingSeparator(t: string, sep: char)
    ensures Split([sep] + t, sep) == [""] + Split(t, sep)
  {
    var u := [sep] + t;
    assert u[0] == sep && u[1..] == t;
  }

  /** A trailing separator adds one empty piece at the end. */
  lemma SplitTrailingSeparator(s: string, sep: char)
    ensures Split(s + [sep], sep) == Split(s, sep) + [""]
  {
    var pieces := Split(s, sep);
    var parts := pieces + [""];
    forall i | 0 <= i < |parts| ensures sep !in parts[i] {
      if i < |pieces| { assert parts[i] == pieces[i]; }
    }
    JoinAppend(pieces, "", sep);
    assert Join(parts, sep) == s + [sep];
    SplitJoin(parts, sep);
  }

  lemma {:induction false} JoinAppend(parts: seq<string>, last: string, sep: char)
    requires |parts| >= 1
    ensures Join(parts + [last], sep) == Join(parts, sep) + [sep] + last
  {
    if |parts| == 1 {
      assert (parts + [last])[1..] == [last];
    } else {
      assert (parts + [last])[1..] == parts[1..] + [last];
      JoinAppend(parts[1..], last, sep);
    }
  }

  /**
   * Splitting commutes with upper-casing: two texts equal up to case split
   * into equally many pieces that are pairwise equal up to case, provided the
   * separator is not a letter.
   */
  lemma {:induction false} SplitSameUpper(a: string, b: string, sep: char)
    requires ToUpper(a) == ToUpper(b)
    requires !IsAsciiLower(sep) && !IsAsciiUpper(sep)
    ensures |Split(a, sep)| == |Split(b, sep)|
    ensures forall i :: 0 <= i < |Split(a, sep)| ==> ToUpper(Split(a, sep)[i]) == ToUpper(Split(b, sep)[i])
    decreases |a|
  {
    if a != [] {
      assert |b| == |a|;
      assert UpperChar(a[0]) == UpperChar(b[0]);
      assert ToUpper(a[1..]) == ToUpper(a)[1..] && ToUpper(b[1..]) == ToUpper(b)[1..];
      SplitSameUpper(a[1..], b[1..], sep);
      var ra, rb := Split(a[1..], sep), Split(b[1..], sep);
      assert a[0] == sep <==> b[0] == sep;
      if a[0] != sep {
        assert ToUpper([a[0]] + ra[0]) == [UpperChar(a[0])] + ToUpper(ra[0]);
        assert ToUpper([b[0]] + rb[0]) == [UpperChar(b[0])] + ToUpper(rb[0]);
      }
    } else {
      assert b == [];
    }
  }
}
