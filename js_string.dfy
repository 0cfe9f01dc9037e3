/** The JavaScript string built-ins the exporter relies on, over `seq<char>`
    (one `char` per Unicode code point). */
module JsString {

  /** `p` occurs in `s` starting at index `i`. */
  predicate OccursAt(s: string, p: string, i: int)
  {
    0 <= i && i + |p| <= |s| && s[i..i + |p|] == p
  }

  /** `String.prototype.indexOf`: the least index at which `p` occurs in `s`, or -1. */
  function IndexOf(s: string, p: string): (r: int)
    ensures r == -1 <==> forall i :: !OccursAt(s, p, i)
    ensures r >= 0 ==> OccursAt(s, p, r) && forall i :: 0 <= i < r ==> !OccursAt(s, p, i)
    ensures r >= -1
  {
    IndexFrom(s, p, 0)
  }

  /** `s.indexOf(p, from)` for a start position inside `s`. */
  function IndexFrom(s: string, p: string, from: nat): (r: int)
    requires from <= |s|
    ensures r == -1 <==> forall i :: from <= i ==> !OccursAt(s, p, i)
    ensures r >= 0 ==> from <= r && OccursAt(s, p, r) && forall i :: from <= i < r ==> !OccursAt(s, p, i)
    ensures r >= -1
    decreases |s| - from
  {
    if from + |p| > |s| then -1
    else if s[from..from + |p|] == p then assert OccursAt(s, p, from); from
    else IndexFrom(s, p, from + 1)
  }

  /** `String.prototype.includes`. */
  predicate Includes(s: string, p: string)
  {
    IndexOf(s, p) != -1
  }

  /** The first-occurrence characterisation determines `indexOf`. */
  lemma IndexOfIs(s: string, p: string, k: int)
    requires OccursAt(s, p, k)
    requires forall i :: 0 <= i < k ==> !OccursAt(s, p, i)
    ensures IndexOf(s, p) == k
  {
  }

  /** `s.substring(start)` for `start >= 0`: a start past the end gives "". */
  function SubstringFrom(s: string, start: nat): (r: string)
    ensures |r| == if start >= |s| then 0 else |s| - start
    ensures r == s[|s| - |r|..]
  {
    if start >= |s| then "" else s[start..]
  }

  /** `s.replaceAll(t, "")`: scanning left to right, every occurrence of `t`
      found by `indexOf` is removed and the search resumes after it.
      Replacing the empty string by the empty string leaves `s` as it is. */
  function RemoveAll(s: string, t: string): (r: string)
    ensures |r| <= |s|
    ensures |t| > 0 ==> (|r| == |s| <==> IndexOf(s, t) == -1)
    ensures IndexOf(s, t) == -1 ==> r == s
    decreases |s|
  {
    if |t| == 0 then s
    else
      var i := IndexOf(s, t);
      if i == -1 then s else s[..i] + RemoveAll(s[i + |t|..], t)
  }

  /** An independent reference for `RemoveAll`: a character-by-character scan
      that drops `t` wherever `t` starts at the current position. */
  function RemoveScan(s: string, t: string): string
    requires |t| > 0
    decreases |s|
  {
    if |s| < |t| then s
    else if s[..|t|] == t then RemoveScan(s[|t|..], t)
    else [s[0]] + RemoveScan(s[1..], t)
  }

  /** If `t` does not start anywhere before `k`, the scan copies `s[..k]`. */
  lemma {:induction false} RemoveScanSkips(s: string, t: string, k: nat)
    requires |t| > 0 && k <= |s|
    requires forall i :: 0 <= i < k ==> !OccursAt(s, t, i)
    ensures RemoveScan(s, t) == s[..k] + RemoveScan(s[k..], t)
    decreases k
  {
    if k > 0 {
      assert !OccursAt(s, t, 0);
      if |s| < |t| {
        // Then no occurrence at all and the scan is the identity.
        RemoveScanShort(s, t);
        RemoveScanShort(s[k..], t);
        assert s[..k] + s[k..] == s;
      } else {
        assert s[..|t|] != t;
        var s' := s[1..];
        forall i | 0 <= i < k - 1 ensures !OccursAt(s', t, i) {
          assert !OccursAt(s, t, i + 1);
          if i + |t| <= |s'| {
            assert s'[i..i + |t|] == s[i + 1..i + 1 + |t|];
          }
        }
        RemoveScanSkips(s', t, k - 1);
        assert s'[k - 1..] == s[k..];
        assert [s[0]] + s'[..k - 1] == s[..k];
      }
    }
  }

  lemma RemoveScanShort(s: string, t: string)
    requires |t| > 0 && |s| < |t|
    ensures RemoveScan(s, t) == s
  {
  }

  /** `RemoveAll` (the `indexOf`-driven loop of `replaceAll`) agrees with the scan. */
  lemma {:induction false} RemoveAllIsScan(s: string, t: string)
    requires |t| > 0
    ensures RemoveAll(s, t) == RemoveScan(s, t)
    decreases |s|
  {
    var i := IndexOf(s, t);
    if i == -1 {
      RemoveScanSkips(s, t, |s|);
      assert s[..|s|] == s;
    } else {
      RemoveScanSkips(s, t, i);
      var rest := s[i..];
      assert rest[..|t|] == t;
      assert rest[|t|..] == s[i + |t|..];
      RemoveAllIsScan(s[i + |t|..], t);
    }
  }

  /** ASCII case folding (the model of `toLowerCase` for ASCII text). */
  function LowerChar(c: char): char
  {
    if 'A' <= c <= 'Z' then c - 'A' + 'a' else c
  }

  /** `String.prototype.toLowerCase`, restricted to ASCII letters. */
  function ToLowerAscii(s: string): (r: string)
    ensures |r| == |s|
    ensures forall i :: 0 <= i < |s| ==> r[i] == LowerChar(s[i])
    decreases |s|
  {
    if |s| == 0 then [] else [LowerChar(s[0])] + ToLowerAscii(s[1..])
  }

  /** Lower-casing twice is lower-casing once. */
  lemma ToLowerIdempotent(s: string)
    ensures ToLowerAscii(ToLowerAscii(s)) == ToLowerAscii(s)
  {
  }

  /** `s.replace(/[cs]+/g, "")`: every run of characters from `cs` removed,
      that is, every such character dropped. */
  function RemoveChars(s: string, cs: set<char>): (r: string)
    ensures |r| <= |s|
    ensures forall i :: 0 <= i < |r| ==> r[i] !in cs
    ensures (forall i :: 0 <= i < |s| ==> s[i] !in cs) ==> r == s
    ensures forall c :: c !in cs ==> multiset(r)[c] == multiset(s)[c]
    ensures |s| == 1 ==> r == (if s[0] in cs then "" else s)
    decreases |s|
  {
    if |s| == 0 then ""
    else
      var rest := RemoveChars(s[1..], cs);
      assert s == [s[0]] + s[1..];
      if s[0] in cs then rest else [s[0]] + rest
  }

  /** The removal keeps the order of what is left: removing from `a + b` is
      removing from `a`, then from `b`. With the one-character cases of
      `RemoveChars`, this fixes the result on every text. */
  lemma {:induction false} RemoveCharsAppend(a: string, b: string, cs: set<char>)
    ensures RemoveChars(a + b, cs) == RemoveChars(a, cs) + RemoveChars(b, cs)
    decreases |a|
  {
    if |a| == 0 {
      assert a + b == b;
    } else {
      assert (a + b)[0] == a[0];
      assert (a + b)[1..] == a[1..] + b;
      RemoveCharsAppend(a[1..], b, cs);
    }
  }

  /** `Array.prototype.join` over strings. */
  function Join(xs: seq<string>, sep: string): (r: string)
    ensures |xs| == 1 ==> r == xs[0]
    decreases |xs|
  {
    if |xs| == 0 then ""
    else if |xs| == 1 then xs[0]
    else xs[0] + sep + Join(xs[1..], sep)
  }

  /** `String.prototype.split` with a one-character separator. */
  function Split(s: string, c: char): (r: seq<string>)
    ensures |r| >= 1
    decreases |s|
  {
    if |s| == 0 then [""]
    else
      var rest := Split(s[1..], c);
      assert s == [s[0]] + s[1..];
      if s[0] == c then [""] + rest else [[s[0]] + rest[0]] + rest[1..]
  }

  /** Splitting is unaffected by a separator-free prefix, which joins the first piece. */
  lemma {:induction false} SplitPrefix(a: string, b: string, c: char)
    requires c !in a
    ensures Split(a + b, c) == [a + Split(b, c)[0]] + Split(b, c)[1..]
    decreases |a|
  {
    if |a| > 0 {
      assert (a + b)[1..] == a[1..] + b;
      SplitPrefix(a[1..], b, c);
      assert [a[0]] + (a[1..] + Split(b, c)[0]) == a + Split(b, c)[0];
    } else {
      assert a + b == b;
      assert a + Split(b, c)[0] == Split(b, c)[0];
      assert Split(b, c) == [Split(b, c)[0]] + Split(b, c)[1..];
    }
  }

  /** Joining separator-free pieces and splitting again gives the pieces back. */
  lemma {:induction false} SplitJoin(xs: seq<string>, c: char)
    requires |xs| >= 1
    requires forall k :: 0 <= k < |xs| ==> c !in xs[k]
    ensures Split(Join(xs, [c]), c) == xs
    decreases |xs|
  {
    if |xs| == 1 {
      SplitPrefix(xs[0], "", c);
      assert xs[0] + "" == xs[0];
    } else {
      var rest := Join(xs[1..], [c]);
      SplitJoin(xs[1..], c);
      assert Join(xs, [c]) == xs[0] + ([c] + rest);
      SplitPrefix(xs[0], [c] + rest, c);
      assert Split([c] + rest, c) == [""] + Split(rest, c) by {
        assert ([c] + rest)[0] == c;
        assert ([c] + rest)[1..] == rest;
      }
      assert xs[0] + "" == xs[0];
      assert xs == [xs[0]] + xs[1..];
    }
  }
}
