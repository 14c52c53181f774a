/** Vocabulary shared by every component: optional values, a few sequence facts, decimal numerals, white space, and the
    states of a document. */
module Basics {

  datatype Option<+T> = None | Some(value: T)

  /** How far a document has come on its way into the index. */
  datatype Status = Uploaded | Parsing | Chunking | Embedding | Indexed | Failed

  ghost predicate NoDuplicates<T>(s: seq<T>) {
    forall i, j :: 0 <= i < j < |s| ==> s[i] != s[j]
  }

  /** The elements of a sequence, as a set. */
  function Elements<T>(s: seq<T>): set<T> {
    set x | x in s
  }

  /** A position of v; the only one when the sequence has no duplicates. */
  ghost function Position<T>(s: seq<T>, v: T): (i: nat)
    requires v in s
    ensures i < |s| && s[i] == v
  {
    var i: nat :| i < |s| && s[i] == v;
    i
  }

  lemma {:induction false} DistinctSize<T>(s: seq<T>)
    requires NoDuplicates(s)
    ensures |Elements(s)| == |s|
  {
    if s == [] {
    } else {
      var init := s[..|s| - 1];
      DistinctSize(init);
      assert s == init + [s[|s| - 1]];
      assert Elements(s) == Elements(init) + {s[|s| - 1]};
    }
  }

  function Positions<T(==)>(s: seq<T>, v: T): set<nat> {
    set i: nat | i < |s| && s[i] == v
  }

  /** How often v stands in s is the number of its positions. */
  lemma {:induction false} CountIsPositions<T>(s: seq<T>, v: T)
    ensures multiset(s)[v] == |Positions(s, v)|
  {
    if s == [] {
    } else {
      var init, n := s[..|s| - 1], |s| - 1;
      CountIsPositions(init, v);
      assert s == init + [s[n]];
      assert Positions(s, v) == Positions(init, v) + if s[n] == v then {n} else {};
    }
  }

  lemma SubsetSize<T>(small: set<T>, large: set<T>)
    requires small <= large
    ensures |small| <= |large|
    ensures small < large ==> |small| < |large|
  {
    assert large == small + (large - small);
  }

  // ---- picking elements ----------------------------------------------------------------

  /** The elements with property p, as a comprehension with an `if` picks them. */
  function Kept<T>(s: seq<T>, p: T -> bool): seq<T> {
    if s == [] then [] else (if p(s[0]) then [s[0]] else []) + Kept(s[1..], p)
  }

  /** `part` is what stands in `s` at the positions `at`, in the same order. */
  ghost predicate InStoredOrder<T>(s: seq<T>, part: seq<T>, at: seq<nat>) {
    && |at| == |part|
    && (forall k :: 0 <= k < |at| ==> at[k] < |s| && part[k] == s[at[k]])
    && (forall j, k :: 0 <= j < k < |at| ==> at[j] < at[k])
  }

  ghost function KeptAt<T>(s: seq<T>, p: T -> bool): seq<nat> {
    if s == [] then [] else (if p(s[0]) then [0] else []) + OneFurther(KeptAt(s[1..], p))
  }

  /** Exactly the elements with the property are picked, each where it stands, in their order. */
  lemma KeptInOrder<T>(s: seq<T>, p: T -> bool)
    ensures InStoredOrder(s, Kept(s, p), KeptAt(s, p))
    ensures forall i: nat :: i in KeptAt(s, p) <==> i < |s| && p(s[i])
    ensures forall x :: x in Kept(s, p) <==> x in s && p(x)
  {
    PickedInOrder(s, p);
    forall i: nat ensures i in KeptAt(s, p) <==> i < |s| && p(s[i]) {
      PickedAt(s, p, i);
    }
    hide Kept, KeptAt;
    forall x ensures x in Kept(s, p) <==> x in s && p(x) {
      if x in s && p(x) {
        var k := Position(KeptAt(s, p), Position(s, x));
        assert Kept(s, p)[k] == x;
      }
    }
  }

  lemma {:induction false} PickedInOrder<T>(s: seq<T>, p: T -> bool)
    ensures InStoredOrder(s, Kept(s, p), KeptAt(s, p))
  {
    hide InStoredOrder;
    if s == [] {
      NothingStored<T>();
    } else {
      PickedInOrder(s[1..], p);
      OneAhead(s, Kept(s[1..], p), KeptAt(s[1..], p));
      var tail := OneFurther(KeptAt(s[1..], p));
      assert [] + tail == tail && [] + Kept(s[1..], p) == Kept(s[1..], p);
    }
  }

  lemma {:induction false} PickedAt<T>(s: seq<T>, p: T -> bool, i: nat)
    ensures i in KeptAt(s, p) <==> i < |s| && p(s[i])
  {
    if s == [] {
    } else {
      var tail := OneFurther(KeptAt(s[1..], p));
      assert KeptAt(s, p) == (if p(s[0]) then [0] else []) + tail;
      FurtherPositions(KeptAt(s[1..], p), i);
      if i > 0 {
        PickedAt(s[1..], p, i - 1);
      }
      hide KeptAt;
    }
  }

  lemma {:induction false} AllKept<T>(s: seq<T>, p: T -> bool)
    requires forall x :: x in s ==> p(x)
    ensures Kept(s, p) == s
  {
    if s == [] {
    } else {
      assert s[0] in s && s == [s[0]] + s[1..];
      AllKept(s[1..], p);
    }
  }

  lemma {:induction false} KeptAppend<T>(s: seq<T>, x: T, p: T -> bool)
    ensures Kept(s + [x], p) == Kept(s, p) + if p(x) then [x] else []
  {
    if s == [] {
      assert [x][1..] == [] && s + [x] == [x];
    } else {
      var all, here := s + [x], if p(s[0]) then [s[0]] else [];
      assert all[1..] == s[1..] + [x] && all[0] == s[0];
      KeptAppend(s[1..], x, p);
      assert Kept(all, p) == here + Kept(all[1..], p) && Kept(s, p) == here + Kept(s[1..], p);
      hide Kept;
    }
  }

  function OneFurther(at: seq<nat>): (r: seq<nat>)
    ensures |r| == |at| && forall k :: 0 <= k < |at| ==> r[k] == at[k] + 1
  {
    seq(|at|, k requires 0 <= k < |at| => at[k] + 1)
  }

  lemma FurtherPositions(at: seq<nat>, i: nat)
    ensures i in OneFurther(at) <==> i > 0 && i - 1 in at
  {
    if i > 0 && i - 1 in at {
      assert OneFurther(at)[Position(at, i - 1)] == i;
    }
  }

  lemma NothingStored<T>()
    ensures InStoredOrder<T>([], [], [])
  {}

  lemma OneAhead<T>(s: seq<T>, part: seq<T>, behind: seq<nat>)
    requires s != [] && InStoredOrder(s[1..], part, behind)
    ensures InStoredOrder(s, part, OneFurther(behind))
    ensures InStoredOrder(s, [s[0]] + part, [0] + OneFurther(behind))
  {}

  /** Without the first of them, what is left stands at the later positions. */
  lemma LaterPositions<T>(s: seq<T>, part: seq<T>, at: seq<nat>, from: nat)
    requires InStoredOrder(s, part, at) && from <= |part|
    ensures InStoredOrder(s, part[from..], at[from..]) && |at| == |part|
    ensures forall i: nat :: from < |at| && at[from] <= i ==> (i in at[from..] <==> i in at)
  {
    forall i: nat | from < |at| && at[from] <= i && i in at ensures i in at[from..] {
      var k := Position(at, i);
      assert k >= from && at[from..][k - from] == i;
    }
  }

  // ---- numerals and white space -----------------------------------------------------------

  function Sum(ns: seq<nat>): nat {
    if ns == [] then 0 else Sum(ns[..|ns| - 1]) + ns[|ns| - 1]
  }

  function Digit(d: nat): (c: char)
    requires d < 10
    ensures '0' <= c <= '9'
  {
    "0123456789"[d]
  }

  /** What a template literal or an f-string prints for a natural number. */
  function Decimal(n: nat): (s: string)
    ensures |s| > 0
    ensures forall c :: c in s ==> '0' <= c <= '9'
  {
    if n < 10 then [Digit(n)] else Decimal(n / 10) + [Digit(n % 10)]
  }

  /** The number a row of digits stands for. */
  function NumberOf(digits: string): int {
    if digits == "" then 0 else 10 * NumberOf(digits[..|digits| - 1]) + (digits[|digits| - 1] as int - '0' as int)
  }

  lemma {:induction false} DecimalReadsBack(n: nat)
    ensures NumberOf(Decimal(n)) == n
  {
    if n >= 10 {
      DecimalReadsBack(n / 10);
      assert Decimal(n)[..|Decimal(n)| - 1] == Decimal(n / 10);
    } else {
      assert Decimal(n)[..0] == "";
    }
  }

  lemma DecimalInjective(a: nat, b: nat)
    requires Decimal(a) == Decimal(b)
    ensures a == b
  {
    DecimalReadsBack(a);
    DecimalReadsBack(b);
  }

  /** What Python's str methods treat as white space. */
  predicate IsSpace(c: char) {
    || '\t' <= c <= '\r' || '\U{1C}' <= c <= ' ' || c == '\U{85}' || c == '\U{A0}' || c == '\U{1680}'
    || '\U{2000}' <= c <= '\U{200A}' || c == '\U{2028}' || c == '\U{2029}' || c == '\U{202F}'
    || c == '\U{205F}' || c == '\U{3000}'
  }

  /** The first position from i on that holds no white space. */
  function SkipSpaces(s: string, i: nat): (j: nat)
    requires i <= |s|
    ensures i <= j <= |s|
    ensures j < |s| ==> !IsSpace(s[j])
    ensures forall k :: i <= k < j ==> IsSpace(s[k])
    decreases |s| - i
  {
    if i < |s| && IsSpace(s[i]) then SkipSpaces(s, i + 1) else i
  }

  function TrimRight(s: string): (r: string)
    ensures r <= s
    ensures r != [] ==> !IsSpace(r[|r| - 1])
    ensures forall k :: |r| <= k < |s| ==> IsSpace(s[k])
  {
    if s != [] && IsSpace(s[|s| - 1]) then TrimRight(s[..|s| - 1]) else s
  }

  function TrimLeft(s: string): (r: string)
    ensures |r| <= |s| && r == s[|s| - |r|..]
    ensures r != [] ==> !IsSpace(r[0])
    ensures forall k :: 0 <= k < |s| - |r| ==> IsSpace(s[k])
  {
    if s != [] && IsSpace(s[0]) then TrimLeft(s[1..]) else s
  }

  /** str.strip() */
  function Strip(s: string): string {
    TrimLeft(TrimRight(s))
  }

  /** `middle` stands at i in s, with nothing but white space around it and none at its own ends. */
  ghost predicate StrippedAt(s: string, middle: string, i: nat) {
    && i + |middle| <= |s| && s[i..i + |middle|] == middle
    && (forall k :: 0 <= k < |s| && !(i <= k < i + |middle|) ==> IsSpace(s[k]))
    && (middle != "" ==> !IsSpace(middle[0]) && !IsSpace(middle[|middle| - 1]))
  }

  lemma CutAtEnd(s: string, middle: string, i: nat)
    requires StrippedAt(s, middle, i)
    ensures TrimRight(s) == if middle == "" then "" else s[..i + |middle|]
  {
    hide IsSpace;
    var cut, n := TrimRight(s), i + |middle|;
    if middle != "" {
      assert s[n - 1] == s[i..n][|middle| - 1];
    }
    if cut != "" {
      assert cut[|cut| - 1] == s[|cut| - 1];
    }
  }

  lemma CutAtStart(s: string, middle: string, i: nat)
    requires middle != "" && StrippedAt(s, middle, i)
    ensures TrimLeft(s[..i + |middle|]) == middle
  {
    hide IsSpace;
    var whole := s[..i + |middle|];
    var rest := TrimLeft(whole);
    var start := |whole| - |rest|;
    assert whole[i] == s[i] == s[i..i + |middle|][0];
    assert rest != "" && rest[0] == whole[start] == s[start];
    assert start == i;
  }

  /** Stripping gives exactly that middle. */
  lemma StripMeans(s: string, middle: string, i: nat)
    requires StrippedAt(s, middle, i)
    ensures Strip(s) == middle
  {
    CutAtEnd(s, middle, i);
    hide StrippedAt, TrimRight;
    if middle != "" {
      CutAtStart(s, middle, i);
    }
  }
}
