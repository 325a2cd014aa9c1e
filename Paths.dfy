/** The two repository paths the component asks for, and a reading of each
    back into the identifiers it was built from. */
module Paths {
  import opened Js
  import opened Decimal

  /** Folder of the versioned layout:
      `/{definitionId}/{releaseId}/{definitionEnvironmentId}/{attemptNumber}/`,
      where the attempt number is the count of deploy steps. */
  function VersionedPath(definitionId: nat, releaseId: nat, definitionEnvironmentId: nat, attemptNumber: nat): string
  {
    "/" + NatToString(definitionId) + "/" + NatToString(releaseId) + "/"
    + NatToString(definitionEnvironmentId) + "/" + NatToString(attemptNumber) + "/"
  }

  /** File of the legacy layout: `{definitionId}/{releaseId}.html`, with no
      leading slash. */
  function LegacyPath(definitionId: nat, releaseId: nat): string
  {
    NatToString(definitionId) + "/" + NatToString(releaseId) + ".html"
  }

  /** `String.prototype.split` on a single-character separator. */
  function Split(s: string, sep: char): (parts: seq<string>)
    ensures |parts| >= 1
    ensures forall i :: 0 <= i < |parts| ==> sep !in parts[i]
    decreases |s|
  {
    if |s| == 0 then [""]
    else
      var rest := Split(s[1..], sep);
      if s[0] == sep then [""] + rest else [[s[0]] + rest[0]] + rest[1..]
  }

  /** Splitting after a separator-free prefix peels that prefix off. */
  lemma {:induction false} SplitAfter(x: string, sep: char, y: string)
    requires sep !in x
    ensures Split(x + [sep] + y, sep) == [x] + Split(y, sep)
    decreases |x|
  {
    if |x| == 0 {
      assert (x + [sep] + y)[1..] == y;
    } else {
      assert (x + [sep] + y)[1..] == x[1..] + [sep] + y;
      SplitAfter(x[1..], sep, y);
      assert [x[0]] + x[1..] == x;
    }
  }

  /** A string without the separator is a single part. */
  lemma {:induction false} SplitNone(x: string, sep: char)
    requires sep !in x
    ensures Split(x, sep) == [x]
    decreases |x|
  {
    if |x| > 0 {
      SplitNone(x[1..], sep);
      assert [x[0]] + x[1..] == x;
    }
  }

  lemma DigitsHaveNoSeparators(n: nat)
    ensures '/' !in NatToString(n) && '.' !in NatToString(n)
  {
  }

  /** The versioned path is exactly four decimal segments between a leading
      and a trailing slash. */
  lemma VersionedPathSegments(a: nat, b: nat, c: nat, d: nat)
    ensures Split(VersionedPath(a, b, c, d), '/')
         == ["", NatToString(a), NatToString(b), NatToString(c), NatToString(d), ""]
  {
    DigitsHaveNoSeparators(a);
    DigitsHaveNoSeparators(b);
    DigitsHaveNoSeparators(c);
    DigitsHaveNoSeparators(d);
    VersionedPathNested(a, b, c, d);
    SplitSegments(NatToString(a), NatToString(b), NatToString(c), NatToString(d));
  }

  /** Splitting the right-nested form of the template. */
  lemma SplitSegments(A: string, B: string, C: string, D: string)
    requires '/' !in A && '/' !in B && '/' !in C && '/' !in D
    ensures Split("/" + (A + "/" + (B + "/" + (C + "/" + (D + "/")))), '/') == ["", A, B, C, D, ""]
  {
    var tailD := D + "/";
    var tailC := C + "/" + tailD;
    var tailB := B + "/" + tailC;
    var tailA := A + "/" + tailB;
    SplitAfter(D, '/', "");
    assert D + ['/'] + "" == tailD;
    SplitAfter(C, '/', tailD);
    SplitAfter(B, '/', tailC);
    SplitAfter(A, '/', tailB);
    SplitAfter("", '/', tailA);
    assert "" + ['/'] + tailA == "/" + tailA;
  }

  lemma VersionedPathNested(a: nat, b: nat, c: nat, d: nat)
    ensures VersionedPath(a, b, c, d)
         == "/" + (NatToString(a) + "/" + (NatToString(b) + "/" + (NatToString(c) + "/" + (NatToString(d) + "/"))))
  {
    Reassociate(NatToString(a), NatToString(b), NatToString(c), NatToString(d));
  }

  /** The left-nested concatenation of the template, regrouped to the right. */
  lemma Reassociate(A: string, B: string, C: string, D: string)
    ensures "/" + A + "/" + B + "/" + C + "/" + D + "/" == "/" + (A + "/" + (B + "/" + (C + "/" + (D + "/"))))
  {
  }

  /** The legacy path is two decimal segments, the second carrying the
      `.html` extension; the first segment is not empty, so the path has no
      leading slash. */
  lemma LegacyPathSegments(a: nat, b: nat)
    ensures Split(LegacyPath(a, b), '/') == [NatToString(a), NatToString(b) + ".html"]
    ensures LegacyPath(a, b)[0] != '/'
  {
    var A, B := NatToString(a), NatToString(b);
    DigitsHaveNoSeparators(a);
    DigitsHaveNoSeparators(b);
    assert LegacyPath(a, b) == A + ['/'] + (B + ".html");
    assert '/' !in B + ".html";
    SplitNone(B + ".html", '/');
    SplitAfter(A, '/', B + ".html");
    assert LegacyPath(a, b)[0] == A[0];
  }

  /** Reading a versioned path back into its four identifiers. */
  function ParseVersionedPath(p: string): Option<(nat, nat, nat, nat)>
  {
    var parts := Split(p, '/');
    if |parts| == 6 && parts[0] == "" && parts[5] == ""
       && ParseNat(parts[1]).Some? && ParseNat(parts[2]).Some?
       && ParseNat(parts[3]).Some? && ParseNat(parts[4]).Some?
    then Some((ParseNat(parts[1]).value, ParseNat(parts[2]).value,
               ParseNat(parts[3]).value, ParseNat(parts[4]).value))
    else None
  }

  /** Reading a legacy path back into its two identifiers. */
  function ParseLegacyPath(p: string): Option<(nat, nat)>
  {
    var parts := Split(p, '/');
    if |parts| == 2 && |parts[1]| >= 5 && parts[1][|parts[1]| - 5..] == ".html"
       && ParseNat(parts[0]).Some? && ParseNat(parts[1][..|parts[1]| - 5]).Some?
    then Some((ParseNat(parts[0]).value, ParseNat(parts[1][..|parts[1]| - 5]).value))
    else None
  }

  lemma VersionedPathRoundTrip(a: nat, b: nat, c: nat, d: nat)
    ensures ParseVersionedPath(VersionedPath(a, b, c, d)) == Some((a, b, c, d))
  {
    VersionedPathSegments(a, b, c, d);
    NatToStringRoundTrip(a);
    NatToStringRoundTrip(b);
    NatToStringRoundTrip(c);
    NatToStringRoundTrip(d);
  }

  lemma LegacyPathRoundTrip(a: nat, b: nat)
    ensures ParseLegacyPath(LegacyPath(a, b)) == Some((a, b))
  {
    LegacyPathSegments(a, b);
    var B := NatToString(b);
    assert (B + ".html")[..|B + ".html"| - 5] == B;
    assert (B + ".html")[|B + ".html"| - 5..] == ".html";
    NatToStringRoundTrip(a);
    NatToStringRoundTrip(b);
  }

  /** Two releases share a versioned folder only when all four identifiers agree. */
  lemma VersionedPathInjective(a: nat, b: nat, c: nat, d: nat, a': nat, b': nat, c': nat, d': nat)
    requires VersionedPath(a, b, c, d) == VersionedPath(a', b', c', d')
    ensures a == a' && b == b' && c == c' && d == d'
  {
    VersionedPathRoundTrip(a, b, c, d);
    VersionedPathRoundTrip(a', b', c', d');
  }

  /** Two releases share a legacy file only when both identifiers agree. */
  lemma LegacyPathInjective(a: nat, b: nat, a': nat, b': nat)
    requires LegacyPath(a, b) == LegacyPath(a', b')
    ensures a == a' && b == b'
  {
    LegacyPathRoundTrip(a, b);
    LegacyPathRoundTrip(a', b');
  }
}
