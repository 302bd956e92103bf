/** Fixed-width integers and the few facts about sequences that several modules share. */
module Prelude {

  const UINT32_LIMIT := 0x1_0000_0000

  type byte = n: int | 0 <= n < 0x100
  type uint16 = n: int | 0 <= n < 0x1_0000
  type uint32 = n: int | 0 <= n < 0x1_0000_0000

  datatype Option<+T> = None | Some(value: T)

  function AsSeq<T>(o: Option<T>): seq<T> {
    match o
    case Some(value) => [value]
    case None => []
  }

  ghost predicate StrictlyIncreasing(s: seq<nat>) {
    forall i, j :: 0 <= i < j < |s| ==> s[i] < s[j]
  }

  /** `sub` is found in `full`, in order, at the positions `at`. */
  ghost predicate OccursAt<T>(sub: seq<T>, full: seq<T>, at: seq<nat>) {
    && |at| == |sub|
    && StrictlyIncreasing(at)
    && forall i :: 0 <= i < |at| ==> at[i] < |full| && full[at[i]] == sub[i]
  }

  /** Whether `sub` is found in `full`, in order, by taking the first match each time. */
  predicate Subsequence<T(==)>(sub: seq<T>, full: seq<T>) {
    if sub == [] then true
    else if full == [] then false
    else if full[0] == sub[0] then Subsequence(sub[1..], full[1..])
    else Subsequence(sub, full[1..])
  }

  lemma SubsequenceHead<T>(sub: seq<T>, full: seq<T>)
    requires sub != [] && full != []
    ensures Subsequence(sub, full) <==> Subsequence(if full[0] == sub[0] then sub[1..] else sub, full[1..])
  {
  }

  lemma OccurrenceInTail<T>(sub: seq<T>, full: seq<T>, at: seq<nat>, skip: nat)
    requires OccursAt(sub, full, at) && full != [] && skip <= |sub|
    requires forall i :: skip <= i < |at| ==> at[i] > 0
    ensures OccursAt(sub[skip..], full[1..], seq(|at| - skip, i requires 0 <= i < |at| - skip => at[i + skip] - 1))
  {
  }

  /** Taking the first match each time finds whatever there is to find. */
  lemma {:induction false} GreedyFinds<T>(sub: seq<T>, full: seq<T>, at: seq<nat>)
    requires OccursAt(sub, full, at)
    ensures Subsequence(sub, full)
    decreases |full|
  {
    if sub == [] {
    } else {
      assert at[0] < |full| && full[at[0]] == sub[0];
      var skip := if full[0] == sub[0] then 1 else 0;
      assert forall i :: skip <= i < |at| && i > 0 ==> at[i] > at[0];
      OccurrenceInTail(sub, full, at, skip);
      GreedyFinds(sub[skip..], full[1..], seq(|at| - skip, i requires 0 <= i < |at| - skip => at[i + skip] - 1));
      assert skip == 0 ==> sub[skip..] == sub;
    }
  }

  lemma {:induction false} GreedyPlaces<T>(sub: seq<T>, full: seq<T>) returns (at: seq<nat>)
    requires Subsequence(sub, full)
    ensures OccursAt(sub, full, at)
    decreases |full|
  {
    if sub == [] {
      at := [];
    } else {
      var skip := if full[0] == sub[0] then 1 else 0;
      assert skip == 0 ==> sub[skip..] == sub;
      var rest := GreedyPlaces(sub[skip..], full[1..]);
      at := seq(|sub|, i requires 0 <= i < |sub| => if i < skip then 0 else rest[i - skip] + 1);
    }
  }

  lemma SubsequenceDrop<T>(sub: seq<T>, full: seq<T>, k: nat)
    requires Subsequence(sub, full) && k <= |sub|
    ensures Subsequence(sub[k..], full)
  {
    var at := GreedyPlaces(sub, full);
    GreedyFinds(sub[k..], full, at[k..]);
  }

  lemma {:induction false} SubsequenceOfItself<T>(s: seq<T>)
    ensures Subsequence(s, s)
  {
    if s == [] {
    } else {
      SubsequenceOfItself(s[1..]);
    }
  }

  lemma {:induction false} SubsequenceIsShorter<T>(sub: seq<T>, full: seq<T>)
    requires Subsequence(sub, full)
    ensures |sub| <= |full|
    decreases |full|
  {
    if sub == [] {
    } else {
      SubsequenceIsShorter(if full[0] == sub[0] then sub[1..] else sub, full[1..]);
    }
  }

  /** The concatenation of a sequence of pieces. */
  function Join<T>(pieces: seq<seq<T>>): seq<T> {
    if pieces == [] then [] else Join(pieces[..|pieces| - 1]) + pieces[|pieces| - 1]
  }

  lemma JoinSnoc<T>(pieces: seq<seq<T>>, piece: seq<T>)
    ensures Join(pieces + [piece]) == Join(pieces) + piece
  {
    assert (pieces + [piece])[..|pieces|] == pieces;
  }

  /** The numbers 0, 1, ..., n - 1, each once. */
  ghost function Below(n: nat): multiset<nat> {
    if n == 0 then multiset{} else Below(n - 1) + multiset{n - 1}
  }

  lemma {:induction false} BelowCounts(n: nat, i: nat)
    ensures Below(n)[i] == if i < n then 1 else 0
  {
    if n == 0 {
    } else {
      BelowCounts(n - 1, i);
    }
  }

  lemma IncreasingSnoc(s: seq<nat>, x: nat)
    requires StrictlyIncreasing(s)
    requires forall i :: 0 <= i < |s| ==> s[i] < x
    ensures StrictlyIncreasing(s + [x])
  {
  }

  lemma DivisionIsUnique(a: int, q: int, r: int, m: int)
    requires m > 0 && a == q * m + r && 0 <= r < m
    ensures a / m == q && a % m == r
  {
    var d := q - a / m;
    Euclid(a, m);
    assert d * m == q * m - (a / m) * m;
    MultipleOutsideGap(d, m);
  }

  lemma Euclid(a: int, m: int)
    requires m > 0
    ensures a == (a / m) * m + a % m && 0 <= a % m < m
  {
  }

  lemma MultipleOutsideGap(d: int, m: int)
    requires m > 0
    ensures d >= 1 ==> d * m >= m
    ensures d <= -1 ==> d * m <= -m
  {
  }
}
