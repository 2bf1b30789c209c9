/** The password generator: class guarantee, in-place Fisher-Yates shuffle, and what it can produce. */
module Password {
  import opened Options

  const MIN_LENGTH := 8

  // ---------- the shuffle ----------

  /** The draws a shuffle of n positions consumes: for i = n-1 down to 1 one number in [0, i]. */
  predicate ValidDraws(draws: seq<nat>, n: nat) {
    && |draws| == (if n == 0 then 0 else n - 1)
    && forall k :: 0 <= k < |draws| ==> draws[k] <= n - 1 - k
  }

  function Swap<T>(s: seq<T>, i: nat, j: nat): (r: seq<T>)
    requires i < |s| && j < |s|
    ensures |r| == |s|
  {
    s[i := s[j]][j := s[i]]
  }

  lemma SwapKeepsMultiset<T>(s: seq<T>, i: nat, j: nat)
    requires i < |s| && j < |s|
    ensures multiset(Swap(s, i, j)) == multiset(s)
  {
  }

  /** What the shuffle leaves in place of s: the drawn element goes last, the rest is shuffled on. */
  function Shuffle<T>(s: seq<T>, draws: seq<nat>): (r: seq<T>)
    requires ValidDraws(draws, |s|)
    ensures |r| == |s|
    decreases |s|
  {
    if |s| <= 1 then s
    else
      var last := |s| - 1;
      Shuffle(Swap(s, last, draws[0])[..last], draws[1..]) + [s[draws[0]]]
  }

  ghost predicate Distinct<T(!new)>(s: seq<T>) {
    forall i, j :: 0 <= i < j < |s| ==> s[i] != s[j]
  }

  function IndexOf<T(==)>(s: seq<T>, x: T): (k: nat)
    requires x in s
    ensures k < |s| && s[k] == x
  {
    if s[0] == x then 0 else 1 + IndexOf(s[1..], x)
  }

  lemma FrontAndLast<T>(s: seq<T>)
    requires |s| > 0
    ensures multiset(s[..|s| - 1]) == multiset(s) - multiset{s[|s| - 1]}
    ensures multiset(s) == multiset(s[..|s| - 1]) + multiset{s[|s| - 1]}
    ensures s[|s| - 1] in s
  {
    assert s == s[..|s| - 1] + [s[|s| - 1]];
  }

  lemma SameElements<T>(s: seq<T>, p: seq<T>, x: T)
    requires multiset(s) == multiset(p) && x in p
    ensures x in s && |s| == |p|
  {
    assert x in multiset(p);
    assert |multiset(s)| == |s| && |multiset(p)| == |p|;
  }

  lemma LastOfSwap<T>(s: seq<T>, j: nat)
    requires j < |s|
    ensures Swap(s, |s| - 1, j)[|s| - 1] == s[j]
  {
  }

  lemma SwapPeelsOne<T>(s: seq<T>, j: nat)
    requires j < |s|
    ensures multiset(Swap(s, |s| - 1, j)[..|s| - 1]) == multiset(s) - multiset{s[j]}
  {
    SwapKeepsMultiset(s, |s| - 1, j);
    LastOfSwap(s, j);
    FrontAndLast(Swap(s, |s| - 1, j));
  }

  lemma SwapPeels<T>(s: seq<T>, p: seq<T>, j: nat)
    requires multiset(s) == multiset(p) && |s| == |p| && j < |s| && s[j] == p[|p| - 1]
    ensures multiset(Swap(s, |s| - 1, j)[..|s| - 1]) == multiset(p[..|p| - 1])
  {
    SwapPeelsOne(s, j);
    FrontAndLast(p);
  }

  /** Where to find in s the element that p ends with. */
  function LastDraw<T(==)>(s: seq<T>, p: seq<T>): (j: nat)
    requires multiset(s) == multiset(p) && |s| > 0
    ensures |s| == |p| && j < |s| && s[j] == p[|p| - 1]
  {
    SameElements(p, s, s[0]);
    SameElements(s, p, p[|p| - 1]);
    IndexOf(s, p[|p| - 1])
  }

  /** The draws that turn s into its rearrangement p: the inverse of Shuffle. */
  function DrawsFor<T(==)>(s: seq<T>, p: seq<T>): (draws: seq<nat>)
    requires multiset(s) == multiset(p)
    ensures ValidDraws(draws, |s|)
    decreases |s|
  {
    if |s| <= 1 then []
    else
      var last := |s| - 1;
      var j := LastDraw(s, p);
      SwapPeels(s, p, j);
      [j] + DrawsFor(Swap(s, last, j)[..last], p[..last])
  }

  /** Every rearrangement of any sequence is reached, by the draws computed for it. */
  lemma {:induction false} EveryRearrangementIsDrawn<T>(s: seq<T>, p: seq<T>)
    requires multiset(s) == multiset(p)
    ensures Shuffle(s, DrawsFor(s, p)) == p
    decreases |s|
  {
    if |s| == 0 {
      assert |multiset(p)| == 0;
    } else {
      var last := |s| - 1;
      var j := LastDraw(s, p);
      assert p == p[..last] + [p[last]];
      if last > 0 {
        SwapPeels(s, p, j);
        EveryRearrangementIsDrawn(Swap(s, last, j)[..last], p[..last]);
        assert DrawsFor(s, p)[1..] == DrawsFor(Swap(s, last, j)[..last], p[..last]);
      }
    }
  }

  lemma SwapKeepsDistinct<T(!new)>(s: seq<T>, i: nat, j: nat)
    requires Distinct(s) && i < |s| && j < |s|
    ensures Distinct(Swap(s, i, j)[..|s| - 1])
  {
    var t := Swap(s, i, j);
    forall k, l | 0 <= k < l < |s| ensures t[k] != t[l] {
      var k' := if k == i then j else if k == j then i else k;
      var l' := if l == i then j else if l == j then i else l;
      assert t[k] == s[k'] && t[l] == s[l'] && k' != l';
    }
  }

  lemma ShuffleUnfolds<T>(s: seq<T>, d: seq<nat>)
    requires ValidDraws(d, |s|) && |s| > 1
    ensures Shuffle(s, d)[|s| - 1] == s[d[0]]
    ensures ValidDraws(d[1..], |s| - 1)
    ensures Shuffle(s, d)[..|s| - 1] == Shuffle(Swap(s, |s| - 1, d[0])[..|s| - 1], d[1..])
  {
  }

  /** On distinct elements no other draws reach the same rearrangement. */
  lemma {:induction false} DrawsAreDetermined<T(!new)>(s: seq<T>, d: seq<nat>, e: seq<nat>)
    requires Distinct(s)
    requires ValidDraws(d, |s|) && ValidDraws(e, |s|)
    requires Shuffle(s, d) == Shuffle(s, e)
    ensures d == e
    decreases |s|
  {
    if |s| > 1 {
      ShuffleUnfolds(s, d);
      ShuffleUnfolds(s, e);
      assert d[0] == e[0];
      SwapKeepsDistinct(s, |s| - 1, d[0]);
      DrawsAreDetermined(Swap(s, |s| - 1, d[0])[..|s| - 1], d[1..], e[1..]);
      assert d == [d[0]] + d[1..] && e == [e[0]] + e[1..];
    }
  }

  lemma {:induction false} ShuffleKeepsElements<T>(s: seq<T>, draws: seq<nat>)
    requires ValidDraws(draws, |s|)
    ensures multiset(Shuffle(s, draws)) == multiset(s)
    decreases |s|
  {
    if |s| > 1 {
      var last := |s| - 1;
      var t := Swap(s, last, draws[0]);
      SwapKeepsMultiset(s, last, draws[0]);
      LastOfSwap(s, draws[0]);
      ShuffleKeepsElements(t[..last], draws[1..]);
      FrontAndLast(t);
    }
  }

  /** Shuffle is a bijection from draws to rearrangements of a sequence of distinct elements. */
  lemma ShuffleIsABijection<T(!new)>(s: seq<T>, p: seq<T>)
    requires Distinct(s)
    ensures multiset(p) == multiset(s) <==> exists d :: ValidDraws(d, |s|) && Shuffle(s, d) == p
    ensures forall d, e :: ValidDraws(d, |s|) && ValidDraws(e, |s|) && Shuffle(s, d) == p && Shuffle(s, e) == p ==>
      d == e
  {
    if multiset(p) == multiset(s) {
      EveryRearrangementIsDrawn(s, p);
      assert ValidDraws(DrawsFor(s, p), |s|);
    }
    forall d | ValidDraws(d, |s|) && Shuffle(s, d) == p
      ensures multiset(p) == multiset(s)
    {
      ShuffleKeepsElements(s, d);
    }
    forall d, e | ValidDraws(d, |s|) && ValidDraws(e, |s|) && Shuffle(s, d) == p && Shuffle(s, e) == p
      ensures d == e
    {
      DrawsAreDetermined(s, d, e);
    }
  }

  // ---------- how many draws there are ----------

  function Factorial(n: nat): nat {
    if n == 0 then 1 else n * Factorial(n - 1)
  }

  function Prefixed(j: nat, tails: set<seq<nat>>): set<seq<nat>> {
    set d | d in tails :: [j] + d
  }

  lemma {:induction false} PrefixedSize(j: nat, tails: set<seq<nat>>)
    ensures |Prefixed(j, tails)| == |tails|
    decreases |tails|
  {
    if tails != {} {
      var d :| d in tails;
      var rest := tails - {d};
      PrefixedSize(j, rest);
      assert [j] + d !in Prefixed(j, rest) by {
        forall e | e in rest ensures [j] + e != [j] + d {
          assert ([j] + e)[1..] == e && ([j] + d)[1..] == d;
        }
      }
      assert Prefixed(j, tails) == Prefixed(j, rest) + {[j] + d} by {
        assert tails == rest + {d};
      }
    }
  }

  /** The draws that begin with a number below k. */
  function BeginningBelow(k: nat, tails: set<seq<nat>>): set<seq<nat>> {
    if k == 0 then {} else BeginningBelow(k - 1, tails) + Prefixed(k - 1, tails)
  }

  lemma PrefixedMember(j: nat, tails: set<seq<nat>>, d: seq<nat>)
    ensures d in Prefixed(j, tails) <==> |d| > 0 && d[0] == j && d[1..] in tails
  {
    if |d| > 0 {
      assert d == [d[0]] + d[1..];
    }
    if e :| e in tails && d == [j] + e {
      assert d[1..] == e;
    }
  }

  lemma {:induction false} BeginningBelowMember(k: nat, tails: set<seq<nat>>, d: seq<nat>)
    ensures d in BeginningBelow(k, tails) <==> |d| > 0 && d[0] < k && d[1..] in tails
  {
    if k > 0 {
      BeginningBelowMember(k - 1, tails, d);
      PrefixedMember(k - 1, tails, d);
    }
  }

  lemma BeginningsAreApart(k: nat, tails: set<seq<nat>>)
    ensures BeginningBelow(k, tails) !! Prefixed(k, tails)
  {
    forall d | d in BeginningBelow(k, tails)
      ensures d !in Prefixed(k, tails)
    {
      BeginningBelowMember(k, tails, d);
      PrefixedMember(k, tails, d);
    }
  }

  lemma BeginningBelowGrows(k: nat, tails: set<seq<nat>>)
    ensures |BeginningBelow(k + 1, tails)| == |BeginningBelow(k, tails)| + |tails|
  {
    var before, more := BeginningBelow(k, tails), Prefixed(k, tails);
    PrefixedSize(k, tails);
    BeginningsAreApart(k, tails);
    assert |before + more| == |before| + |more|;
  }

  /** Repeated addition. */
  function Times(k: nat, m: nat): nat {
    if k == 0 then 0 else Times(k - 1, m) + m
  }

  lemma {:induction false} TimesIsProduct(k: nat, m: nat)
    ensures Times(k, m) == k * m
  {
    if k > 0 {
      TimesIsProduct(k - 1, m);
    }
  }

  lemma {:induction false} BeginningBelowSize(k: nat, tails: set<seq<nat>>)
    ensures |BeginningBelow(k, tails)| == Times(k, |tails|)
  {
    if k > 0 {
      BeginningBelowSize(k - 1, tails);
      BeginningBelowGrows(k - 1, tails);
    }
  }

  /** Every sequence of draws for n positions. */
  function AllDraws(n: nat): set<seq<nat>> {
    if n <= 1 then {[]} else BeginningBelow(n, AllDraws(n - 1))
  }

  lemma FirstDraw(d: seq<nat>, n: nat)
    requires n > 1
    ensures ValidDraws(d, n) <==> |d| > 0 && d[0] < n && ValidDraws(d[1..], n - 1)
  {
    if |d| > 0 && d[0] < n && ValidDraws(d[1..], n - 1) {
      forall k | 0 <= k < |d| ensures d[k] <= n - 1 - k {
        if k > 0 { assert d[k] == d[1..][k - 1]; }
      }
    }
  }

  lemma {:induction false} AllDrawsAreTheValid(n: nat, d: seq<nat>)
    ensures d in AllDraws(n) <==> ValidDraws(d, n)
    decreases n
  {
    if n > 1 {
      FirstDraw(d, n);
      BeginningBelowMember(n, AllDraws(n - 1), d);
      if |d| > 0 {
        AllDrawsAreTheValid(n - 1, d[1..]);
      }
    }
  }

  lemma {:induction false} DrawsNumberFactorial(n: nat)
    ensures |AllDraws(n)| == Factorial(n)
  {
    if n <= 1 {
      assert Factorial(0) == 1;
      assert Factorial(n) == 1;
    } else {
      DrawsNumberFactorial(n - 1);
      BeginningBelowSize(n, AllDraws(n - 1));
      TimesIsProduct(n, Factorial(n - 1));
    }
  }

  predicate Reaches<T(==)>(s: seq<T>, d: seq<nat>, p: seq<T>) {
    ValidDraws(d, |s|) && Shuffle(s, d) == p
  }

  /** The draws that shuffle s into p. */
  function DrawsReaching<T(==)>(s: seq<T>, p: seq<T>): set<seq<nat>> {
    set d | d in AllDraws(|s|) && Reaches(s, d, p)
  }

  lemma OneReaches<T(!new)>(s: seq<T>, p: seq<T>)
    requires Distinct(s) && multiset(s) == multiset(p)
    ensures DrawsReaching(s, p) == {DrawsFor(s, p)}
  {
    var draws := DrawsFor(s, p);
    EveryRearrangementIsDrawn(s, p);
    AllDrawsAreTheValid(|s|, draws);
    assert Reaches(s, draws, p);
    forall d | Reaches(s, d, p)
      ensures d == draws
    {
      DrawsAreDetermined(s, d, draws);
    }
  }

  lemma NoneReaches<T>(s: seq<T>, p: seq<T>)
    requires multiset(s) != multiset(p)
    ensures DrawsReaching(s, p) == {}
  {
    forall d | ValidDraws(d, |s|)
      ensures !Reaches(s, d, p)
    {
      ShuffleKeepsElements(s, d);
    }
    assert forall d :: !Reaches(s, d, p);
  }

  /**
   * Fairness: of the n! sequences of draws, each as likely as any other, exactly one leads to each
   * rearrangement of n distinct elements and none to anything else.
   */
  lemma ShuffleIsFair<T(!new)>(s: seq<T>, p: seq<T>)
    requires Distinct(s)
    ensures |AllDraws(|s|)| == Factorial(|s|)
    ensures |DrawsReaching(s, p)| == if multiset(s) == multiset(p) then 1 else 0
  {
    DrawsNumberFactorial(|s|);
    if multiset(s) == multiset(p) {
      OneReaches(s, p);
    } else {
      NoneReaches(s, p);
    }
  }

  /** The elements go where their positions go, so a fair shuffle of positions is fair for any contents. */
  lemma {:induction false} ElementsFollowPositions<T>(s: seq<T>, at: seq<nat>, base: seq<T>, draws: seq<nat>)
    requires |at| == |s| && ValidDraws(draws, |s|)
    requires forall k :: 0 <= k < |s| ==> at[k] < |base| && s[k] == base[at[k]]
    ensures forall k :: 0 <= k < |s| ==>
      var q := Shuffle(at, draws)[k]; q < |base| && Shuffle(s, draws)[k] == base[q]
    decreases |s|
  {
    if |s| > 1 {
      var last := |s| - 1;
      ElementsFollowPositions(Swap(s, last, draws[0])[..last], Swap(at, last, draws[0])[..last], base, draws[1..]);
    }
  }

  /** What the shuffle loop has achieved when positions above i are settled. */
  ghost predicate Shuffling<T>(s: seq<T>, i: nat, rest: seq<nat>, goal: seq<T>) {
    i < |s| && ValidDraws(rest, i + 1) && Shuffle(s[..i + 1], rest) + s[i + 1..] == goal
  }

  lemma ShuffleTurn<T>(s: seq<T>, i: nat, rest: seq<nat>, goal: seq<T>)
    requires Shuffling(s, i, rest, goal) && i > 0
    ensures rest[0] <= i
    ensures Shuffling(Swap(s, i, rest[0]), i - 1, rest[1..], goal)
  {
    var head := s[..i + 1];
    var t := Swap(s, i, rest[0]);
    ShuffleUnfolds(head, rest);
    assert t[..i] == Swap(head, i, rest[0])[..i];
    assert t[i - 1 + 1..] == [head[rest[0]]] + s[i + 1..];
    var r := Shuffle(head, rest);
    assert r == r[..i] + [r[i]];
  }

  lemma ShufflingStarts<T>(s: seq<T>, draws: seq<nat>)
    requires ValidDraws(draws, |s|) && |s| > 0
    ensures Shuffling(s, |s| - 1, draws, Shuffle(s, draws))
  {
    assert s[..|s|] == s && s[|s|..] == [];
  }

  lemma ShufflingEnds<T>(s: seq<T>, rest: seq<nat>, goal: seq<T>)
    requires Shuffling(s, 0, rest, goal)
    ensures s == goal
  {
    assert s == s[..1] + s[1..];
  }

  method SwapInPlace<T>(a: array<T>, i: nat, j: nat)
    requires i < a.Length && j < a.Length
    modifies a
    ensures a[..] == Swap(old(a[..]), i, j)
  {
    a[i], a[j] := a[j], a[i];
  }

  /** The shuffle loop, swapping in place from the last position down. */
  method ShuffleInPlace<T>(a: array<T>, draws: seq<nat>)
    requires ValidDraws(draws, a.Length)
    modifies a
    ensures a[..] == Shuffle(old(a[..]), draws)
  {
    var n := a.Length;
    if n == 0 {
      return;
    }
    var i := n - 1;
    ghost var goal := Shuffle(a[..], draws);
    ghost var rest := draws;
    ShufflingStarts(a[..], draws);
    while i > 0
      invariant 0 <= i < n
      invariant rest == draws[n - 1 - i..]
      invariant Shuffling(a[..], i, rest, goal)
    {
      ShuffleTurn(a[..], i, rest, goal);
      SwapInPlace(a, i, draws[n - 1 - i]);
      i, rest := i - 1, rest[1..];
    }
    ShufflingEnds(a[..], rest, goal);
  }

  // ---------- the generator ----------

  /** The character classes of a password alphabet. */
  datatype Classes = Classes(lowercase: string, uppercase: string, numbers: string, symbols: string) {
    function All(): string {
      lowercase + uppercase + numbers + symbols
    }

    /** The characters the k-th random pick chooses from. */
    function Alphabet(k: nat): string {
      if k == 0 then lowercase
      else if k == 1 then uppercase
      else if k == 2 then numbers
      else if k == 3 then symbols
      else All()
    }

    /** One in-range random pick for each character. */
    predicate ValidPicks(picks: seq<nat>, length: int) {
      && |picks| == length
      && forall k :: 0 <= k < |picks| ==> picks[k] < |Alphabet(k)|
    }

    function PickedChars(picks: seq<nat>): (r: string)
      requires ValidPicks(picks, |picks|)
      ensures |r| == |picks|
    {
      seq(|picks|, k requires 0 <= k < |picks| => Alphabet(k)[picks[k]])
    }

    /** The requirement the generator documents. */
    predicate Strong(pw: string) {
      && |pw| >= MIN_LENGTH
      && (forall c :: c in pw ==> c in All())
      && (exists c :: c in pw && c in lowercase)
      && (exists c :: c in pw && c in uppercase)
      && (exists c :: c in pw && c in numbers)
      && (exists c :: c in pw && c in symbols)
    }

    /** No character belongs to two classes. */
    predicate Disjoint() {
      && (forall c :: c in lowercase ==> c !in uppercase && c !in numbers && c !in symbols)
      && (forall c :: c in uppercase ==> c !in numbers && c !in symbols)
      && (forall c :: c in numbers ==> c !in symbols)
    }
  }

  function SourceClasses(): Classes {
    Classes("abcdefghijklmnopqrstuvwxyz", "ABCDEFGHIJKLMNOPQRSTUVWXYZ", "0123456789", "!@#$%^&*()_+-=[]{}|;:,.<>?")
  }

  lemma ShuffledPicksAreStrong(cs: Classes, picks: seq<nat>, pw: string)
    requires |picks| >= MIN_LENGTH && cs.ValidPicks(picks, |picks|)
    requires multiset(pw) == multiset(cs.PickedChars(picks))
    ensures |pw| == |picks| && cs.Strong(pw)
  {
    var chars := cs.PickedChars(picks);
    assert |pw| == |multiset(pw)| == |multiset(chars)| == |chars|;
    forall c ensures c in pw <==> c in chars {
      assert c in pw <==> c in multiset(pw);
      assert c in chars <==> c in multiset(chars);
    }
    assert chars[0] in pw && chars[0] in cs.Alphabet(0);
    assert chars[1] in pw && chars[1] in cs.Alphabet(1);
    assert chars[2] in pw && chars[2] in cs.Alphabet(2);
    assert chars[3] in pw && chars[3] in cs.Alphabet(3);
    forall c | c in pw
      ensures c in cs.All()
    {
      var k :| 0 <= k < |chars| && chars[k] == c;
      assert c in cs.Alphabet(k);
    }
  }

  lemma SliceGrows(s: string, i: nat, j: nat)
    requires i <= j < |s|
    ensures s[i..j] + [s[j]] == s[i..j + 1]
  {
  }

  lemma RequiredFirst(cs: Classes, picks: seq<nat>)
    requires |picks| >= 4 && cs.ValidPicks(picks, |picks|)
    ensures cs.PickedChars(picks)[..4] ==
      [cs.Alphabet(0)[picks[0]], cs.Alphabet(1)[picks[1]], cs.Alphabet(2)[picks[2]], cs.Alphabet(3)[picks[3]]]
  {
  }

  lemma FurtherFromAll(cs: Classes, picks: seq<nat>, k: nat)
    requires 4 <= k < |picks| && cs.ValidPicks(picks, |picks|)
    ensures picks[k] < |cs.All()| && cs.PickedChars(picks)[k] == cs.All()[picks[k]]
  {
    assert cs.Alphabet(k) == cs.All();
  }

  /** The required and the further random characters, in the order they are drawn. */
  method PickChars(cs: Classes, length: int, picks: seq<nat>) returns (chars: string)
    requires length >= MIN_LENGTH && cs.ValidPicks(picks, length)
    ensures chars == cs.PickedChars(picks)
  {
    var required :=
      [cs.Alphabet(0)[picks[0]], cs.Alphabet(1)[picks[1]], cs.Alphabet(2)[picks[2]], cs.Alphabet(3)[picks[3]]];
    ghost var picked := cs.PickedChars(picks);
    RequiredFirst(cs, picks);
    var randomChars := [];
    var i := 0;
    while i < length - 4
      invariant 0 <= i <= length - 4
      invariant randomChars == picked[4..4 + i]
    {
      FurtherFromAll(cs, picks, i + 4);
      SliceGrows(picked, 4, 4 + i);
      randomChars := randomChars + [cs.All()[picks[i + 4]]];
      i := i + 1;
    }
    chars := required + randomChars;
    assert picked[..4] + picked[4..] == picked;
  }

  /**
   * The generator over given classes. The random integers it draws are the arguments: picks[k] is
   * the one that chooses character k, draws[k] the k-th one of the shuffle.
   */
  method Generate(cs: Classes, length: int, picks: seq<nat>, draws: seq<nat>) returns (r: Option<string>)
    requires length >= MIN_LENGTH ==> cs.ValidPicks(picks, length) && ValidDraws(draws, length)
    ensures r.None? <==> length < 8
    ensures r.Some? ==> |r.value| == length && cs.Strong(r.value)
    ensures r.Some? ==> r.value == Shuffle(cs.PickedChars(picks), draws)
  {
    if length < MIN_LENGTH {
      return None;
    }
    var chars := PickChars(cs, length, picks);
    var a := new char[length](k requires 0 <= k < |chars| => chars[k]);
    assert a[..] == chars;
    ShuffleInPlace(a, draws);
    ShuffleKeepsElements(chars, draws);
    ShuffledPicksAreStrong(cs, picks, a[..]);
    return Some(a[..]);
  }

  method GenerateStrongPassword(length: int, picks: seq<nat>, draws: seq<nat>) returns (r: Option<string>)
    requires length >= MIN_LENGTH ==> SourceClasses().ValidPicks(picks, length) && ValidDraws(draws, length)
    ensures r.None? <==> length < 8
    ensures r.Some? ==> |r.value| == length && SourceClasses().Strong(r.value)
    ensures r.Some? ==> r.value == Shuffle(SourceClasses().PickedChars(picks), draws)
  {
    var cs := SourceClasses();
    r := Generate(cs, length, picks, draws);
  }

  // ---------- what the generator can produce ----------

  function Without(s: string, c: char): (r: string)
    requires c in s
    ensures multiset(s) == multiset{c} + multiset(r)
    ensures |r| == |s| - 1
  {
    var k := IndexOf(s, c);
    assert s == s[..k] + [s[k]] + s[k + 1..];
    s[..k] + s[k + 1..]
  }

  lemma RemainsIn(s: string, c: char, d: char)
    requires c in s && d in s && c != d
    ensures d in Without(s, c)
  {
    assert d in multiset(s);
    assert d in multiset(Without(s, c));
  }

  lemma WithoutFour(s: string, a: char, b: char, c: char, d: char) returns (r: string)
    requires a in s && b in s && c in s && d in s
    requires a != b && a != c && a != d && b != c && b != d && c != d
    ensures multiset(s) == multiset{a, b, c, d} + multiset(r)
    ensures |s| == 4 + |r|
  {
    RemainsIn(s, a, b); RemainsIn(s, a, c); RemainsIn(s, a, d);
    var s1 := Without(s, a);
    RemainsIn(s1, b, c); RemainsIn(s1, b, d);
    var s2 := Without(s1, b);
    RemainsIn(s2, c, d);
    r := Without(Without(s2, c), d);
  }

  /** A strong password rearranged so that the generator could have picked its characters in this order. */
  lemma Unshuffle(cs: Classes, pw: string) returns (chars: string)
    requires cs.Disjoint() && cs.Strong(pw)
    ensures |chars| == |pw| && multiset(chars) == multiset(pw)
    ensures forall k :: 0 <= k < |chars| ==> chars[k] in cs.Alphabet(k)
  {
    var l :| l in pw && l in cs.lowercase;
    var u :| u in pw && u in cs.uppercase;
    var n :| n in pw && n in cs.numbers;
    var y :| y in pw && y in cs.symbols;
    var rest := WithoutFour(pw, l, u, n, y);
    RestIsAllowed(pw, rest, multiset{l, u, n, y});
    chars := FourFirst(cs, pw, rest, l, u, n, y);
  }

  lemma FourFirst(cs: Classes, pw: string, rest: string, l: char, u: char, n: char, y: char) returns (chars: string)
    requires l in cs.lowercase && u in cs.uppercase && n in cs.numbers && y in cs.symbols
    requires multiset(pw) == multiset{l, u, n, y} + multiset(rest) && |pw| == 4 + |rest|
    requires (forall k :: 0 <= k < |rest| ==> rest[k] in pw) && forall c :: c in pw ==> c in cs.All()
    ensures |chars| == |pw| && multiset(chars) == multiset(pw)
    ensures forall k :: 0 <= k < |chars| ==> chars[k] in cs.Alphabet(k)
  {
    chars := [l, u, n, y] + rest;
    assert multiset(chars) == multiset([l, u, n, y]) + multiset(rest);
  }

  lemma RestIsAllowed(pw: string, rest: string, taken: multiset<char>)
    requires multiset(pw) == taken + multiset(rest)
    ensures forall k :: 0 <= k < |rest| ==> rest[k] in pw
  {
    forall k | 0 <= k < |rest|
      ensures rest[k] in pw
    {
      assert rest[k] in multiset(rest);
      assert rest[k] in multiset(pw);
    }
  }

  lemma PicksOf(cs: Classes, chars: string) returns (picks: seq<nat>)
    requires forall k :: 0 <= k < |chars| ==> chars[k] in cs.Alphabet(k)
    ensures cs.ValidPicks(picks, |chars|) && cs.PickedChars(picks) == chars
  {
    picks := seq(|chars|, k requires 0 <= k < |chars| => IndexOf(cs.Alphabet(k), chars[k]));
  }

  ghost predicate Producible(cs: Classes, pw: string) {
    exists picks, draws ::
      && |picks| >= MIN_LENGTH && cs.ValidPicks(picks, |picks|) && ValidDraws(draws, |picks|)
      && Shuffle(cs.PickedChars(picks), draws) == pw
  }

  /** Over disjoint classes the generator produces exactly the strings that meet its requirement. */
  lemma OutputsOverClasses(cs: Classes, pw: string)
    requires cs.Disjoint()
    ensures cs.Strong(pw) <==> Producible(cs, pw)
  {
    if cs.Strong(pw) {
      var chars := Unshuffle(cs, pw);
      var picks := PicksOf(cs, chars);
      EveryRearrangementIsDrawn(chars, pw);
      assert ValidDraws(DrawsFor(chars, pw), |picks|);
    }
    if Producible(cs, pw) {
      var picks, draws :|
        && |picks| >= MIN_LENGTH && cs.ValidPicks(picks, |picks|) && ValidDraws(draws, |picks|)
        && Shuffle(cs.PickedChars(picks), draws) == pw;
      ShuffleKeepsElements(cs.PickedChars(picks), draws);
      ShuffledPicksAreStrong(cs, picks, pw);
    }
  }

  lemma LowercaseRange()
    ensures forall c :: c in SourceClasses().lowercase ==> 'a' <= c <= 'z'
  {
  }

  lemma UppercaseRange()
    ensures forall c :: c in SourceClasses().uppercase ==> 'A' <= c <= 'Z'
  {
  }

  lemma NumbersRange()
    ensures forall c :: c in SourceClasses().numbers ==> '0' <= c <= '9'
  {
  }

  lemma SymbolsAreNotLowercase()
    ensures forall c :: c in SourceClasses().symbols ==> !('a' <= c <= 'z')
  {
  }

  lemma SymbolsAreNotUppercase()
    ensures forall c :: c in SourceClasses().symbols ==> !('A' <= c <= 'Z')
  {
  }

  lemma SymbolsAreNotNumbers()
    ensures forall c :: c in SourceClasses().symbols ==> !('0' <= c <= '9')
  {
  }

  /** Instantiates the ranges for any classes that have them, away from the long literals. */
  lemma RangesAreDisjoint(cs: Classes)
    requires forall c :: c in cs.lowercase ==> 'a' <= c <= 'z'
    requires forall c :: c in cs.uppercase ==> 'A' <= c <= 'Z'
    requires forall c :: c in cs.numbers ==> '0' <= c <= '9'
    requires forall c :: c in cs.symbols ==> !('a' <= c <= 'z')
    requires forall c :: c in cs.symbols ==> !('A' <= c <= 'Z')
    requires forall c :: c in cs.symbols ==> !('0' <= c <= '9')
    ensures cs.Disjoint()
  {
  }

  /** The strings the program's generator can return are exactly the strong passwords. */
  lemma OutputsAreTheStrongPasswords(pw: string)
    ensures SourceClasses().Strong(pw) <==> Producible(SourceClasses(), pw)
  {
    LowercaseRange();
    UppercaseRange();
    NumbersRange();
    SymbolsAreNotLowercase();
    SymbolsAreNotUppercase();
    SymbolsAreNotNumbers();
    RangesAreDisjoint(SourceClasses());
    OutputsOverClasses(SourceClasses(), pw);
  }
}
