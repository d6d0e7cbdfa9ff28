/**
 * The JavaScript string built-ins that the simplifier and the word packer rely on,
 * written out over `seq<char>`: the `\s` class (which `trim` also strips), `slice`
 * with its negative offsets, `indexOf`/`lastIndexOf`, a global single-character
 * `replace`, `split('\n')`, the one-shot `replace(/\s{2,}/, ' ')`, `trim` and the
 * decimal rendering of a non-negative integer.
 */
module JsText {

  /** ECMAScript's WhiteSpace and LineTerminator code points: the `\s` class, and the set `trim` removes. */
  predicate IsSpace(c: char) {
    || c == ' ' || c == '\t' || c == '\n' || c == '\r' || c == '\U{B}' || c == '\U{C}'
    || c == '\U{A0}' || c == '\U{1680}' || ('\U{2000}' <= c <= '\U{200A}')
    || c == '\U{2028}' || c == '\U{2029}' || c == '\U{202F}' || c == '\U{205F}'
    || c == '\U{3000}' || c == '\U{FEFF}'
  }

  predicate AllSpace(s: string) {
    forall i :: 0 <= i < |s| ==> IsSpace(s[i])
  }

  // ---------------------------------------------------------------------------
  // slice, indexOf, lastIndexOf

  /** How `slice` reads one of its offsets: a negative one counts back from the end; both are clamped to the string. */
  function SliceOffset(i: int, len: nat): (r: nat)
    ensures r <= len
    ensures 0 <= i <= len ==> r == i
    ensures i < 0 && len + i >= 0 ==> r == len + i
  {
    if i < 0 then (if len + i < 0 then 0 else len + i)
    else if i > len then len
    else i
  }

  /** `s.slice(start, end)`. */
  function Slice(s: string, start: int, end: int): (r: string)
    ensures 0 <= start <= end <= |s| ==> r == s[start..end]
    ensures start == 0 && end == -1 && |s| > 0 ==> r == s[..|s| - 1]
    ensures |r| <= |s|
  {
    var b, e := SliceOffset(start, |s|), SliceOffset(end, |s|);
    if b < e then s[b..e] else ""
  }

  /** The first position of `c` at or after `from`, or -1. */
  function IndexFrom(s: string, c: char, from: nat): (r: int)
    requires from <= |s|
    ensures r == -1 || from <= r < |s|
    ensures r == -1 ==> forall i :: from <= i < |s| ==> s[i] != c
    ensures r >= 0 ==> s[r] == c && forall i :: from <= i < r ==> s[i] != c
    decreases |s| - from
  {
    if from == |s| then -1
    else if s[from] == c then from
    else IndexFrom(s, c, from + 1)
  }

  /** `s.indexOf(c)`: the first position of `c`, or -1. */
  function IndexOf(s: string, c: char): (r: int)
    ensures -1 <= r < |s|
    ensures r == -1 <==> c !in s
    ensures r >= 0 ==> s[r] == c && c !in s[..r]
  {
    var r := IndexFrom(s, c, 0);
    assert r >= 0 ==> forall i :: 0 <= i < r ==> s[..r][i] == s[i];
    r
  }

  /** The first occurrence is the position of `c` with no `c` before it. */
  lemma IndexOfIs(s: string, c: char, k: nat)
    requires k < |s| && s[k] == c && c !in s[..k]
    ensures IndexOf(s, c) == k
  {
    assert forall i :: 0 <= i < k ==> s[..k][i] == s[i];
    var r := IndexOf(s, c);
    assert forall i :: 0 <= i < r ==> s[..r][i] == s[i];
  }

  /** The last position of `c` before `n`, or -1. */
  function LastIndexBefore(s: string, c: char, n: nat): (r: int)
    requires n <= |s|
    ensures -1 <= r < n
    ensures r == -1 ==> forall i :: 0 <= i < n ==> s[i] != c
    ensures r >= 0 ==> s[r] == c && forall i :: r < i < n ==> s[i] != c
  {
    if n == 0 then -1
    else if s[n - 1] == c then n - 1
    else LastIndexBefore(s, c, n - 1)
  }

  /** `s.lastIndexOf(c)`: the last position of `c`, or -1. */
  function LastIndexOf(s: string, c: char): (r: int)
    ensures -1 <= r < |s|
    ensures r == -1 <==> c !in s
    ensures r >= 0 ==> s[r] == c && c !in s[r + 1..]
  {
    var r := LastIndexBefore(s, c, |s|);
    if r < 0 then r
    else
      var tail := s[r + 1..];
      assert forall j :: 0 <= j < |tail| ==> tail[j] == s[r + 1 + j];
      r
  }

  // ---------------------------------------------------------------------------
  // replace(/x/g, y) for one character

  /** `s.replace(/a/g, b)` for single characters `a` and `b`: every `a` becomes `b`. */
  function ReplaceAll(s: string, a: char, b: char): (r: string)
    ensures |r| == |s|
    ensures forall i :: 0 <= i < |s| ==> r[i] == (if s[i] == a then b else s[i])
  {
    if |s| == 0 then ""
    else [if s[0] == a then b else s[0]] + ReplaceAll(s[1..], a, b)
  }

  // ---------------------------------------------------------------------------
  // split('\n') and its inverse

  /** `s.split('\n')`: never empty, and no piece holds a newline; joining the pieces gives `s` back. */
  function Lines(s: string): (r: seq<string>)
    ensures |r| >= 1
    ensures forall i :: 0 <= i < |r| ==> '\n' !in r[i]
    ensures Join(r) == s
    decreases |s|
  {
    var k := IndexOf(s, '\n');
    if k < 0 then [s]
    else
      var rest := Lines(s[k + 1..]);
      assert s == s[..k] + "\n" + s[k + 1..];
      [s[..k]] + rest
  }

  /** `ls.join('\n')`. */
  function Join(ls: seq<string>): string {
    if |ls| == 0 then ""
    else if |ls| == 1 then ls[0]
    else ls[0] + "\n" + Join(ls[1..])
  }

  lemma {:induction false} JoinAppend(a: seq<string>, b: seq<string>)
    requires |a| >= 1 && |b| >= 1
    ensures Join(a + b) == Join(a) + "\n" + Join(b)
  {
    if |a| == 1 {
      assert (a + b)[1..] == b;
    } else {
      assert (a + b)[1..] == a[1..] + b;
      JoinAppend(a[1..], b);
    }
  }

  /** Splitting a join of newline-free pieces gives the pieces back. */
  lemma {:induction false} LinesOfJoin(ls: seq<string>)
    requires |ls| >= 1
    requires forall i :: 0 <= i < |ls| ==> '\n' !in ls[i]
    ensures Lines(Join(ls)) == ls
  {
    if |ls| == 1 {
      assert IndexOf(ls[0], '\n') == -1;
    } else {
      var s := Join(ls);
      assert s == ls[0] + "\n" + Join(ls[1..]);
      var k := |ls[0]|;
      assert s[..k] == ls[0];
      IndexOfIs(s, '\n', k);
      assert s[k + 1..] == Join(ls[1..]);
      LinesOfJoin(ls[1..]);
    }
  }

  // ---------------------------------------------------------------------------
  // replace(/\s{2,}/, ' '): no `g` flag, so only the leftmost match is replaced

  /** Two whitespace characters start at `k`. */
  predicate SpacePairAt(s: string, k: nat) {
    k + 1 < |s| && IsSpace(s[k]) && IsSpace(s[k + 1])
  }

  /** Where the leftmost match of `\s{2,}` at or after `from` begins, or `|s|` when there is none. */
  function FirstSpacePair(s: string, from: nat): (k: nat)
    requires from <= |s|
    ensures from <= k <= |s|
    ensures k < |s| ==> SpacePairAt(s, k)
    ensures forall j :: from <= j < k ==> !SpacePairAt(s, j)
    decreases |s| - from
  {
    if from + 1 >= |s| then |s|
    else if IsSpace(s[from]) && IsSpace(s[from + 1]) then from
    else FirstSpacePair(s, from + 1)
  }

  /** The end of the whitespace run that starts at `k`: the greedy extent of the match. */
  function SpaceRunEnd(s: string, k: nat): (j: nat)
    requires k <= |s|
    ensures k <= j <= |s|
    ensures AllSpace(s[k..j])
    ensures j == |s| || !IsSpace(s[j])
    decreases |s| - k
  {
    if k < |s| && IsSpace(s[k]) then
      var j := SpaceRunEnd(s, k + 1);
      assert s[k..j] == [s[k]] + s[k + 1..j];
      j
    else k
  }

  /**
   * `s.replace(/\s{2,}/, ' ')`. A string without two adjacent whitespace characters
   * is returned unchanged; otherwise the result is strictly shorter.
   */
  function CollapseFirstSpaceRun(s: string): (r: string)
    ensures (forall k :: !SpacePairAt(s, k)) ==> r == s
    ensures (exists k :: SpacePairAt(s, k)) ==> |r| < |s|
    ensures |r| <= |s|
  {
    var k := FirstSpacePair(s, 0);
    if k == |s| then s
    else s[..k] + " " + s[SpaceRunEnd(s, k)..]
  }

  /**
   * The regular-expression reading of `CollapseFirstSpaceRun`: if `s` is `p + w + q`,
   * where `p` holds no two adjacent whitespace characters and does not end in one,
   * `w` is two or more whitespace characters and `q` does not start with one, then the
   * result is `p + " " + q`. Everything after the first run is left as it was.
   */
  lemma CollapseReplacesLeftmostRun(p: string, w: string, q: string)
    requires forall k :: !SpacePairAt(p, k)
    requires p == [] || !IsSpace(p[|p| - 1])
    requires |w| >= 2 && AllSpace(w)
    requires q == [] || !IsSpace(q[0])
    ensures CollapseFirstSpaceRun(p + w + q) == p + " " + q
  {
    var s := p + w + q;
    var e := |p| + |w|;
    forall j | 0 <= j < |p| ensures !SpacePairAt(s, j) {
      if j + 1 < |p| {
        assert !SpacePairAt(p, j);
      } else {
        assert s[j] == p[|p| - 1];
      }
    }
    assert s[|p|] == w[0] && s[|p| + 1] == w[1];
    assert SpacePairAt(s, |p|);
    assert FirstSpacePair(s, 0) == |p|;
    forall i | |p| <= i < e ensures IsSpace(s[i]) {
      assert s[i] == w[i - |p|];
    }
    assert e < |s| ==> s[e] == q[0];
    SpaceRunEndIs(s, |p|, e);
    assert s[..|p|] == p;
    assert s[e..] == q;
  }

  /** A run of whitespace from `k` that stops at `e` ends at `e`. */
  lemma SpaceRunEndIs(s: string, k: nat, e: nat)
    requires k <= e <= |s|
    requires forall i :: k <= i < e ==> IsSpace(s[i])
    requires e == |s| || !IsSpace(s[e])
    ensures SpaceRunEnd(s, k) == e
    decreases e - k
  {
    if k < e {
      SpaceRunEndIs(s, k + 1, e);
    }
  }

  // ---------------------------------------------------------------------------
  // trim

  /** Where the text of `s` starts once leading whitespace is skipped, searching from `i`. */
  function TextStart(s: string, i: nat): (a: nat)
    requires i <= |s| && AllSpace(s[..i])
    ensures i <= a <= |s| && AllSpace(s[..a])
    ensures a == |s| || !IsSpace(s[a])
    decreases |s| - i
  {
    if i < |s| && IsSpace(s[i]) then
      assert s[..i + 1] == s[..i] + [s[i]];
      TextStart(s, i + 1)
    else i
  }

  /** Where the text of `s` ends once trailing whitespace is dropped, searching down from `j` to `a`. */
  function TextEnd(s: string, a: nat, j: nat): (b: nat)
    requires a <= j <= |s| && AllSpace(s[j..])
    ensures a <= b <= j && AllSpace(s[b..])
    ensures b == a || !IsSpace(s[b - 1])
    decreases j
  {
    if j > a && IsSpace(s[j - 1]) then
      assert s[j - 1..] == [s[j - 1]] + s[j..];
      TextEnd(s, a, j - 1)
    else j
  }

  /**
   * `s.trim()`: the slice of `s` that is left when whitespace is stripped from both
   * ends. It neither starts nor ends with whitespace, and it is empty exactly when
   * `s` is all whitespace.
   */
  function Trim(s: string): (r: string)
    ensures var a := TextStart(s, 0);
      a + |r| <= |s| && r == s[a..a + |r|] && AllSpace(s[..a]) && AllSpace(s[a + |r|..])
    ensures r == [] || (!IsSpace(r[0]) && !IsSpace(r[|r| - 1]))
    ensures r == [] <==> AllSpace(s)
  {
    var a := TextStart(s, 0);
    var b := TextEnd(s, a, |s|);
    assert a < b ==> s[a..b][0] == s[a] && s[a..b][b - a - 1] == s[b - 1];
    AllSpaceSplit(s, a);
    s[a..b]
  }

  lemma AllSpaceSplit(s: string, a: nat)
    requires a <= |s|
    ensures AllSpace(s) <==> AllSpace(s[..a]) && AllSpace(s[a..])
  {
    assert forall i :: 0 <= i < a ==> s[..a][i] == s[i];
    assert forall i :: a <= i < |s| ==> s[a..][i - a] == s[i];
  }

  /** Trimming twice is trimming once. */
  lemma TrimIdempotent(s: string)
    ensures Trim(Trim(s)) == Trim(s)
  {
    var r := Trim(s);
    if r != [] {
      assert TextStart(r, 0) == 0;
      assert TextEnd(r, 0, |r|) == |r|;
    }
  }

  // ---------------------------------------------------------------------------
  // Decimal rendering of a non-negative integer, as `"" + n` gives it

  predicate IsDigit(c: char) {
    '0' <= c <= '9'
  }

  predicate AllDigits(s: string) {
    forall i :: 0 <= i < |s| ==> IsDigit(s[i])
  }

  function DigitChar(d: nat): (c: char)
    requires d < 10
    ensures IsDigit(c) && (c as int) - ('0' as int) == d
  {
    (('0' as int) + d) as char
  }

  /** The number written by a string of decimal digits. */
  function DecimalValue(s: string): nat
    requires AllDigits(s)
  {
    if |s| == 0 then 0
    else DecimalValue(s[..|s| - 1]) * 10 + ((s[|s| - 1] as int) - ('0' as int))
  }

  /**
   * `"" + n` for a non-negative integer `n`: its decimal digits, with no leading zero,
   * one digit below 10 and two below 100; reading them back gives `n`.
   */
  function NatToString(n: nat): (r: string)
    ensures |r| >= 1 && AllDigits(r)
    ensures DecimalValue(r) == n
    ensures |r| > 1 ==> r[0] != '0'
    ensures n < 10 <==> |r| == 1
    ensures 10 <= n < 100 ==> |r| == 2
  {
    if n < 10 then [DigitChar(n)]
    else
      var r := NatToString(n / 10) + [DigitChar(n % 10)];
      assert r[..|r| - 1] == NatToString(n / 10);
      r
  }
}
