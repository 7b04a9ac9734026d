/** The few Python string built-ins the bot relies on: str.strip(),
    str.startswith(), str.split(sep), str(int) and string concatenation. */
module Text {

  datatype Option<+T> = None | Some(value: T)

  // ---------------------------------------------------------------------
  // str.strip()

  /** The characters for which Python's str.isspace() holds; str.strip()
      with no argument removes exactly these from both ends. */
  predicate IsSpace(c: char) {
    || c == ' '
    || ('\t' <= c <= '\r')
    || ('\U{1C}' <= c <= '\U{1F}')
    || c == '\U{85}' || c == '\U{A0}' || c == '\U{1680}'
    || ('\U{2000}' <= c <= '\U{200A}')
    || c == '\U{2028}' || c == '\U{2029}' || c == '\U{202F}'
    || c == '\U{205F}' || c == '\U{3000}'
  }

  /** Every character of s is whitespace (vacuously so for ""). */
  predicate Blank(s: string) {
    forall i :: 0 <= i < |s| ==> IsSpace(s[i])
  }

  /** The characters s[i..j] are all whitespace. */
  predicate SpaceBetween(s: string, i: int, j: int) {
    forall k :: i <= k < j && 0 <= k < |s| ==> IsSpace(s[k])
  }

  /** Neither end of s is whitespace. */
  predicate Trimmed(s: string) {
    s == [] || (!IsSpace(s[0]) && !IsSpace(s[|s| - 1]))
  }

  /** The first index at or after i that is not whitespace, or |s|. */
  function FirstNonSpace(s: string, i: nat): (r: nat)
    requires i <= |s|
    ensures i <= r <= |s| && SpaceBetween(s, i, r)
    ensures r == |s| || !IsSpace(s[r])
    decreases |s| - i
  {
    if i < |s| && IsSpace(s[i]) then FirstNonSpace(s, i + 1) else i
  }

  /** The end of s[lo..e] once trailing whitespace is dropped. */
  function EndNonSpace(s: string, lo: nat, e: nat): (r: nat)
    requires lo <= e <= |s|
    ensures lo <= r <= e && SpaceBetween(s, r, e)
    ensures r == lo || !IsSpace(s[r - 1])
    decreases e - lo
  {
    if e > lo && IsSpace(s[e - 1]) then EndNonSpace(s, lo, e - 1) else e
  }

  /** r is what remains of s once whitespace is removed from both ends. */
  ghost predicate StrippedFrom(r: string, s: string) {
    exists i, j :: 0 <= i <= j <= |s| && r == s[i..j] && SpaceBetween(s, 0, i) && SpaceBetween(s, j, |s|)
  }

  /** Python's s.strip(). */
  function Strip(s: string): (r: string)
    ensures Trimmed(r)
    ensures r == [] <==> Blank(s)
  {
    var l := FirstNonSpace(s, 0);
    var e := EndNonSpace(s, l, |s|);
    assert l < e ==> s[l..e][0] == s[l] && s[l..e][e - l - 1] == s[e - 1];
    assert Blank(s) ==> l == |s|;
    s[l..e]
  }

  /** What Strip removes from either end is whitespace. */
  lemma StripSpec(s: string)
    ensures StrippedFrom(Strip(s), s)
  {
    var l := FirstNonSpace(s, 0);
    var e := EndNonSpace(s, l, |s|);
    assert Strip(s) == s[l..e];
  }

  lemma AppendAssoc<T>(a: seq<T>, b: seq<T>, c: seq<T>)
    ensures a + (b + c) == (a + b) + c
  {
  }

  // ---------------------------------------------------------------------
  // str.startswith(), the separator search behind str.split(sep),
  // str.split(sep), and the join that the lemmas use

  predicate StartsWith(s: string, prefix: string) {
    |prefix| <= |s| && s[..|prefix|] == prefix
  }

  predicate OccursAt(s: string, sep: string, j: int) {
    0 <= j && j + |sep| <= |s| && s[j..j + |sep|] == sep
  }

  /** The first index at or after `from` where sep occurs in s, if any. */
  function Find(s: string, sep: string, from: nat): (k: Option<nat>)
    requires sep != []
    ensures k.Some? ==> from <= k.value && OccursAt(s, sep, k.value)
    decreases |s| - from
  {
    if from + |sep| > |s| then None
    else if s[from..from + |sep|] == sep then Some(from)
    else Find(s, sep, from + 1)
  }

  /** Find misses no occurrence: there is none between `from` and the
      index it returns, and none at all at or after `from` when it fails. */
  lemma {:induction false} FindNoEarlier(s: string, sep: string, from: nat)
    requires sep != []
    ensures forall j :: from <= j && (Find(s, sep, from).None? || j < Find(s, sep, from).value) ==> !OccursAt(s, sep, j)
    decreases |s| - from
  {
    if from + |sep| <= |s| && s[from..from + |sep|] != sep {
      FindNoEarlier(s, sep, from + 1);
    }
  }

  /** Python's s.split(sep) for a non-empty separator: the pieces between
      the non-overlapping occurrences of sep, scanned left to right. */
  function Split(s: string, sep: string): (parts: seq<string>)
    requires sep != []
    ensures |parts| >= 1
    ensures |parts| >= 2 <==> Find(s, sep, 0).Some?
    decreases |s|
  {
    match Find(s, sep, 0)
    case None => [s]
    case Some(k) => [s[..k]] + Split(s[k + |sep|..], sep)
  }

  /** Python's sep.join(parts). */
  function Join(parts: seq<string>, sep: string): string {
    if |parts| == 0 then ""
    else if |parts| == 1 then parts[0]
    else parts[0] + sep + Join(parts[1..], sep)
  }

  lemma {:induction false} JoinSnoc(parts: seq<string>, sep: string, x: string)
    requires |parts| >= 1
    ensures Join(parts + [x], sep) == Join(parts, sep) + sep + x
    decreases |parts|
  {
    if |parts| == 1 {
      assert parts + [x] == [parts[0], x];
      assert [parts[0], x][1..] == [x];
    } else {
      JoinSnoc(parts[1..], sep, x);
      assert (parts + [x])[1..] == parts[1..] + [x];
    }
  }

  /** Splitting and joining again with the same separator gives back s. */
  lemma {:induction false} JoinSplit(s: string, sep: string)
    requires sep != []
    ensures Join(Split(s, sep), sep) == s
    decreases |s|
  {
    match Find(s, sep, 0)
    case None =>
    case Some(k) =>
      var rest := s[k + |sep|..];
      var tail := Split(rest, sep);
      assert Split(s, sep) == [s[..k]] + tail;
      assert |tail| >= 1;
      assert ([s[..k]] + tail)[1..] == tail;
      assert s[k..k + |sep|] == sep;
      calc {
        Join(Split(s, sep), sep);
        Join([s[..k]] + tail, sep);
        s[..k] + sep + Join(tail, sep);
        { JoinSplit(rest, sep); }
        s[..k] + sep + rest;
        { assert s == s[..k] + s[k..k + |sep|] + rest; }
        s;
      }
  }

  /** The part of s before the first occurrence of sep holds no occurrence. */
  lemma FindFirstIsFirst(s: string, sep: string, k: nat)
    requires sep != [] && Find(s, sep, 0) == Some(k)
    ensures Find(s[..k], sep, 0).None?
  {
    FindNoEarlier(s, sep, 0);
    forall j | 0 <= j && j + |sep| <= k ensures !OccursAt(s[..k], sep, j) {
      assert !OccursAt(s, sep, j);
      assert s[..k][j..j + |sep|] == s[j..j + |sep|];
    }
  }

  lemma OccursAtChar(s: string, c: char, j: int)
    ensures OccursAt(s, [c], j) <==> 0 <= j < |s| && s[j] == c
  {
    if 0 <= j < |s| {
      assert s[j..j + 1] == [s[j]];
    }
  }

  lemma FindChar(s: string, c: char)
    ensures Find(s, [c], 0).Some? <==> c in s
    ensures Find(s, [c], 0).Some? ==> var k := Find(s, [c], 0).value; k < |s| && s[k] == c && c !in s[..k]
  {
    FindNoEarlier(s, [c], 0);
    if c in s {
      var j :| 0 <= j < |s| && s[j] == c;
      OccursAtChar(s, c, j);
    }
    if Find(s, [c], 0).Some? {
      var k := Find(s, [c], 0).value;
      OccursAtChar(s, c, k);
      forall j | 0 <= j < k ensures s[..k][j] != c {
        OccursAtChar(s, c, j);
      }
    }
  }

  /** Splitting at a one-character separator: the first piece ends at the
      first occurrence. */
  lemma SplitCons(a: string, c: char, b: string)
    requires c !in a
    ensures Split(a + [c] + b, [c]) == [a] + Split(b, [c])
  {
    var s := a + [c] + b;
    FindChar(s, c);
    assert s[|a|] == c;
    var k := Find(s, [c], 0).value;
    assert k == |a|;
    assert s[..k] == a;
    assert s[k + 1..] == b;
  }

  /** Joining two pieces that do not contain the one-character separator
      and splitting again yields the two pieces. */
  lemma SplitTwo(a: string, c: char, b: string)
    requires c !in a && c !in b
    ensures Split(a + [c] + b, [c]) == [a, b]
  {
    SplitCons(a, c, b);
    FindChar(b, c);
  }

  /** Join and Split are inverse when no piece holds the one-character
      separator. */
  lemma {:induction false} SplitJoin(parts: seq<string>, c: char)
    requires |parts| >= 1
    requires forall i :: 0 <= i < |parts| ==> c !in parts[i]
    ensures Split(Join(parts, [c]), [c]) == parts
    decreases |parts|
  {
    if |parts| == 1 {
      FindChar(parts[0], c);
    } else {
      SplitJoin(parts[1..], c);
      SplitCons(parts[0], c, Join(parts[1..], [c]));
    }
  }

  // ---------------------------------------------------------------------
  // str(n) for a natural number n

  predicate IsDigit(c: char) {
    '0' <= c <= '9'
  }

  function DigitChar(d: nat): (c: char)
    requires d < 10
    ensures IsDigit(c)
  {
    (48 + d) as char
  }

  /** Python's str(n): the decimal digits of n without leading zeros. */
  function DecimalOf(n: nat): (s: string)
    ensures |s| >= 1
    ensures forall i :: 0 <= i < |s| ==> IsDigit(s[i])
    ensures s[0] == '0' ==> n == 0
  {
    if n < 10 then [DigitChar(n)] else DecimalOf(n / 10) + [DigitChar(n % 10)]
  }

  /** The number a string of decimal digits denotes (0 for no digits). */
  function ValueOf(s: string): nat
    requires forall i :: 0 <= i < |s| ==> IsDigit(s[i])
  {
    if s == [] then 0
    else
      assert IsDigit(s[|s| - 1]);
      ValueOf(s[..|s| - 1]) * 10 + (s[|s| - 1] as int - 48)
  }

  lemma {:induction false} ValueOfDecimal(n: nat)
    ensures ValueOf(DecimalOf(n)) == n
  {
    if n >= 10 {
      ValueOfDecimal(n / 10);
      var s := DecimalOf(n);
      assert s[..|s| - 1] == DecimalOf(n / 10);
    }
  }

  /** Distinct numbers have distinct decimal strings. */
  lemma DecimalInjective(m: nat, n: nat)
    ensures DecimalOf(m) == DecimalOf(n) ==> m == n
  {
    ValueOfDecimal(m);
    ValueOfDecimal(n);
  }

  lemma DecimalHasNoSpace(n: nat)
    ensures ' ' !in DecimalOf(n)
  {
    var s := DecimalOf(n);
    assert forall i :: 0 <= i < |s| ==> s[i] != ' ';
  }

  // ---------------------------------------------------------------------
  // concatenation of a sequence of strings ("".join(ss))

  function Concat(ss: seq<string>): string {
    if ss == [] then "" else ss[0] + Concat(ss[1..])
  }
}
