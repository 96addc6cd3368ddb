/**
 * The string operations of JavaScript that the route handlers and the GitHub
 * fetcher rely on: `endsWith`, `includes`, `replace` with a string pattern,
 * `Array.prototype.join`, and the decimal rendering of a non-negative integer
 * inside a template literal. `IndexOf` is the search step inside `replace`
 * (and reads an id or a chat line back); `HasPrefix` is a helper for stating
 * what these produce.
 */
module Text {
  import opened Wrappers

  /** `pat` occurs in `s` starting at index `i`. */
  predicate OccursAt(s: string, pat: string, i: nat)
  {
    i + |pat| <= |s| && s[i..i + |pat|] == pat
  }

  /** `pat` occurs at the start of `s`. */
  predicate HasPrefix(s: string, pat: string)
  {
    OccursAt(s, pat, 0)
  }

  /** `s.endsWith(pat)` */
  predicate HasSuffix(s: string, pat: string)
  {
    |pat| <= |s| && s[|s| - |pat|..] == pat
  }

  /** `s.includes(pat)`: some occurrence anywhere, not only at a word or path boundary. */
  predicate Contains(s: string, pat: string)
  {
    exists i :: 0 <= i <= |s| && OccursAt(s, pat, i)
  }

  /** The first index at or after `from` where `pat` occurs (`s.indexOf(pat, from)`). */
  function IndexOfFrom(s: string, pat: string, from: nat): (r: Option<nat>)
    ensures r.Some? ==> from <= r.value && OccursAt(s, pat, r.value)
    ensures r.Some? ==> forall j :: from <= j < r.value ==> !OccursAt(s, pat, j)
    ensures r.None? ==> forall j: nat :: from <= j ==> !OccursAt(s, pat, j)
    decreases |s| - from
  {
    if from + |pat| > |s| then None
    else if s[from..from + |pat|] == pat then Some(from)
    else IndexOfFrom(s, pat, from + 1)
  }

  /** The first index where `pat` occurs, as `indexOf` gives it, with `None` for -1: the search step of `replace`. */
  function IndexOf(s: string, pat: string): (r: Option<nat>)
    ensures r.Some? <==> Contains(s, pat)
    ensures r.Some? ==> OccursAt(s, pat, r.value) && forall j :: 0 <= j < r.value ==> !OccursAt(s, pat, j)
  {
    IndexOfFrom(s, pat, 0)
  }

  /**
   * `s.replace(pat, rep)` with a string pattern: only the FIRST occurrence of
   * `pat` is replaced, wherever it is; without an occurrence `s` is unchanged.
   * (`rep` is taken literally: the model is used with a replacement free of `$`.)
   */
  function ReplaceFirst(s: string, pat: string, rep: string): (r: string)
    ensures !Contains(s, pat) ==> r == s
    ensures forall i: nat :: OccursAt(s, pat, i) && (forall j :: 0 <= j < i ==> !OccursAt(s, pat, j)) ==>
              r == s[..i] + rep + s[i + |pat|..]
    ensures forall c :: c in r ==> c in s || c in rep
  {
    match IndexOf(s, pat)
    case None => s
    case Some(i) =>
      assert forall c :: c in s[..i] + s[i + |pat|..] ==> c in s;
      s[..i] + rep + s[i + |pat|..]
  }

  /** Concatenation regroups freely. */
  lemma ConcatAssoc(a: string, b: string, c: string)
    ensures a + (b + c) == a + b + c
  {
  }

  /** Four strings regroup freely. */
  lemma Concat4(a: string, b: string, c: string, d: string)
    ensures a + (b + c + d) == a + b + c + d
  {
    ConcatAssoc(a, b + c, d);
    ConcatAssoc(a, b, c);
  }

  /** A text that starts with `a` and then, after `a`, with `b`, starts with `a + b`. */
  lemma PrefixThen(t: string, a: string, b: string)
    requires HasPrefix(t, a) && HasPrefix(t[|a|..], b)
    ensures HasPrefix(t, a + b)
  {
    assert t[..|a| + |b|] == t[..|a|] + t[|a|..][..|b|];
  }

  /** A text that starts with `a + b` starts with `a` and, after `a`, with `b`. */
  lemma PrefixSplit(t: string, a: string, b: string)
    requires HasPrefix(t, a + b)
    ensures HasPrefix(t, a) && HasPrefix(t[|a|..], b)
  {
    assert t[..|a|] == (a + b)[..|a|] == a;
    assert t[|a|..][..|b|] == t[..|a| + |b|][|a|..] == b;
  }

  /** Sum of the lengths of `parts`. */
  function TotalLength(parts: seq<string>): nat
  {
    if parts == [] then 0 else |parts[0]| + TotalLength(parts[1..])
  }

  /** `parts.join(sep)`: the parts in order with `sep` between neighbours. */
  function Join(parts: seq<string>, sep: string): string
  {
    if |parts| == 0 then ""
    else if |parts| == 1 then parts[0]
    else parts[0] + sep + Join(parts[1..], sep)
  }

  /** Where part `k` starts in `Join(parts, sep)`: the earlier parts and one separator after each. */
  function PartOffset(parts: seq<string>, sep: string, k: nat): nat
    requires k <= |parts|
  {
    TotalLength(parts[..k]) + k * |sep|
  }

  /** The offset of part k is the first part and a separator, then the offset of part k - 1 among the rest. */
  lemma PartOffsetStep(parts: seq<string>, sep: string, k: nat)
    requires 0 < k <= |parts|
    ensures PartOffset(parts, sep, k) == |parts[0]| + |sep| + PartOffset(parts[1..], sep, k - 1)
  {
    var tail := parts[1..];
    assert parts[..k][0] == parts[0];
    assert parts[..k][1..] == tail[..k - 1];
    assert TotalLength(parts[..k]) == |parts[0]| + TotalLength(tail[..k - 1]);
    assert k * |sep| == |sep| + (k - 1) * |sep|;
  }

  /** Joining no part gives the empty string and joining one part gives that part unchanged. */
  lemma JoinSmall(parts: seq<string>, sep: string)
    ensures |parts| == 0 ==> Join(parts, sep) == ""
    ensures |parts| == 1 ==> Join(parts, sep) == parts[0]
  {
  }

  /** Every part of a join at its offset, each but the last followed by the separator. */
  lemma JoinLaysOut(parts: seq<string>, sep: string)
    ensures forall k :: 0 <= k < |parts| ==>
              OccursAt(Join(parts, sep), parts[k], PartOffset(parts, sep, k)) &&
              (k + 1 < |parts| ==> OccursAt(Join(parts, sep), sep, PartOffset(parts, sep, k) + |parts[k]|))
  {
    forall k | 0 <= k < |parts|
      ensures OccursAt(Join(parts, sep), parts[k], PartOffset(parts, sep, k)) &&
              (k + 1 < |parts| ==> OccursAt(Join(parts, sep), sep, PartOffset(parts, sep, k) + |parts[k]|))
    {
      JoinLayout(parts, sep, k);
    }
  }

  /** n parts joined: their lengths plus n - 1 separators. */
  lemma {:induction false} JoinLength(parts: seq<string>, sep: string)
    requires |parts| > 0
    ensures |Join(parts, sep)| == TotalLength(parts) + (|parts| - 1) * |sep|
  {
    if |parts| > 1 {
      JoinLength(parts[1..], sep);
    }
  }

  /** An occurrence in `y` is an occurrence in `x + y`, shifted by `|x|`. */
  lemma OccursAfter(x: string, y: string, pat: string, o: nat)
    requires OccursAt(y, pat, o)
    ensures OccursAt(x + y, pat, |x| + o)
  {
    assert (x + y)[|x| + o..|x| + o + |pat|] == y[o..o + |pat|];
  }

  /** A join of two or more parts opens with the first part and a separator. */
  lemma JoinHead(parts: seq<string>, sep: string)
    requires |parts| > 1
    ensures OccursAt(Join(parts, sep), parts[0], 0)
    ensures OccursAt(Join(parts, sep), sep, |parts[0]|)
  {
    var j := Join(parts, sep);
    assert j == parts[0] + sep + Join(parts[1..], sep);
    assert j[..|parts[0]|] == parts[0];
    assert j[|parts[0]|..|parts[0]| + |sep|] == sep;
  }

  /**
   * The layout of `Join(parts, sep)`: part k sits at `PartOffset(parts, sep, k)`
   * and, unless it is the last part, a separator follows it directly. With
   * `JoinLength` this fixes every character of the joined string.
   */
  lemma {:induction false} JoinLayout(parts: seq<string>, sep: string, k: nat)
    requires k < |parts|
    ensures OccursAt(Join(parts, sep), parts[k], PartOffset(parts, sep, k))
    ensures k + 1 < |parts| ==> OccursAt(Join(parts, sep), sep, PartOffset(parts, sep, k) + |parts[k]|)
  {
    if |parts| == 1 {
      assert parts[..0] == [];
    } else if k == 0 {
      assert parts[..0] == [];
      JoinHead(parts, sep);
    } else {
      var tail := parts[1..];
      var head := parts[0] + sep;
      JoinLayout(tail, sep, k - 1);
      PartOffsetStep(parts, sep, k);
      assert Join(parts, sep) == head + Join(tail, sep);
      assert tail[k - 1] == parts[k];
      var o := PartOffset(tail, sep, k - 1);
      OccursAfter(head, Join(tail, sep), parts[k], o);
      if k + 1 < |parts| {
        OccursAfter(head, Join(tail, sep), sep, o + |parts[k]|);
      }
    }
  }

  /** The character of decimal digit `d`. */
  function DigitChar(d: nat): (c: char)
    requires d < 10
    ensures '0' <= c <= '9' && (c as int) - ('0' as int) == d
  {
    (('0' as int) + d) as char
  }

  /** Every character is a decimal digit. */
  predicate AllDigits(s: string)
  {
    forall i :: 0 <= i < |s| ==> '0' <= s[i] <= '9'
  }

  /**
   * The decimal numeral JavaScript prints for a non-negative integer below
   * 10^21 inside a template literal (`${n}`): at least one digit, no leading
   * zero. From 10^21 on JavaScript switches to exponent form (`1e+21`), which
   * is not modelled.
   */
  function DecimalString(n: nat): (r: string)
    ensures |r| >= 1 && AllDigits(r)
    ensures |r| > 1 ==> r[0] != '0'
    decreases n
  {
    if n < 10 then [DigitChar(n)] else DecimalString(n / 10) + [DigitChar(n % 10)]
  }

  /** The value of a numeral, most significant digit first. */
  function DecimalValue(s: string): nat
    requires AllDigits(s)
  {
    if s == [] then 0
    else 10 * DecimalValue(s[..|s| - 1]) + ((s[|s| - 1] as int) - ('0' as int))
  }

  /** Reading back the printed numeral gives the number: the count in a message is unambiguous. */
  lemma {:induction false} DecimalRoundTrip(n: nat)
    ensures DecimalValue(DecimalString(n)) == n
    decreases n
  {
    var s := DecimalString(n);
    if n >= 10 {
      DecimalRoundTrip(n / 10);
      assert s[..|s| - 1] == DecimalString(n / 10);
    }
  }
}
