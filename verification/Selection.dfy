/** The four selection algorithms of kernel-rs/src/reserve.rs (`select_by_algo`), shared with the
    Go degrade path, over exact scores. */
module Selection {

  datatype Algo = WeightedRandom | RoundRobin | LeastInflight | StrictPriority

  datatype Viable = Viable(id: int, score: real, inflight: int)

  function HalfPow(k: nat): (p: real)
    ensures 0.0 < p <= 1.0
  {
    if k == 0 then 1.0 else 0.5 * HalfPow(k - 1)
  }

  /** compute.rs `weighted_score`. */
  function WeightedScore(rate: real, fails: nat, boost: real): (score: real)
    ensures score >= 1.0
  {
    var score := rate * HalfPow(fails) * boost;
    if score < 1.0 then 1.0 else score
  }

  // ---- Stable sorting ---------------------------------------------------------

  /** `a` must come before `b`. Ties keep their order. */
  predicate Precedes(algo: Algo, a: Viable, b: Viable) {
    match algo
    case RoundRobin => a.id < b.id
    case LeastInflight => a.inflight < b.inflight || (a.inflight == b.inflight && a.score > b.score)
    case StrictPriority => a.score > b.score
    case WeightedRandom => false
  }

  predicate Tied(algo: Algo, a: Viable, b: Viable) {
    !Precedes(algo, a, b) && !Precedes(algo, b, a)
  }

  function StableSort(algo: Algo, s: seq<Viable>): seq<Viable> {
    if s == [] then [] else Insert(algo, s[0], StableSort(algo, s[1..]))
  }

  function Insert(algo: Algo, x: Viable, ys: seq<Viable>): seq<Viable> {
    if ys != [] && Precedes(algo, ys[0], x) then [ys[0]] + Insert(algo, x, ys[1..]) else [x] + ys
  }

  predicate Ordered(algo: Algo, s: seq<Viable>) {
    forall i, j :: 0 <= i < j < |s| ==> !Precedes(algo, s[j], s[i])
  }

  /** The elements tied with `e`, in the order they appear. */
  function TiedWith(algo: Algo, s: seq<Viable>, e: Viable): seq<Viable> {
    if s == [] then []
    else (if Tied(algo, s[0], e) then [s[0]] else []) + TiedWith(algo, s[1..], e)
  }

  ghost predicate IsStableSortOf(algo: Algo, out: seq<Viable>, s: seq<Viable>) {
    Ordered(algo, out) && forall e :: TiedWith(algo, out, e) == TiedWith(algo, s, e)
  }

  lemma {:induction false} TiedMembers(algo: Algo, s: seq<Viable>, e: Viable)
    ensures forall x :: x in TiedWith(algo, s, e) <==> x in s && Tied(algo, x, e)
  {
    if s != [] {
      TiedMembers(algo, s[1..], e);
    }
  }

  lemma {:induction false} InsertMembers(algo: Algo, x: Viable, ys: seq<Viable>)
    ensures multiset(Insert(algo, x, ys)) == multiset(ys) + multiset{x}
  {
    if ys != [] && Precedes(algo, ys[0], x) {
      InsertMembers(algo, x, ys[1..]);
      assert ys == [ys[0]] + ys[1..];
    }
  }

  lemma {:induction false} InsertOrdered(algo: Algo, x: Viable, ys: seq<Viable>)
    requires Ordered(algo, ys)
    ensures Ordered(algo, Insert(algo, x, ys))
  {
    if ys != [] && Precedes(algo, ys[0], x) {
      var tail := Insert(algo, x, ys[1..]);
      InsertOrdered(algo, x, ys[1..]);
      InsertMembers(algo, x, ys[1..]);
      forall i | 0 <= i < |tail| ensures !Precedes(algo, tail[i], ys[0]) {
        assert tail[i] in multiset(tail);
      }
    } else if ys != [] {
      forall i | 0 <= i < |ys| ensures !Precedes(algo, ys[i], x) {
        assert i > 0 ==> !Precedes(algo, ys[i], ys[0]);
      }
    }
  }

  lemma {:induction false} InsertTied(algo: Algo, x: Viable, ys: seq<Viable>, e: Viable)
    ensures TiedWith(algo, Insert(algo, x, ys), e) == TiedWith(algo, [x] + ys, e)
  {
    TiedCons(algo, x, ys, e);
    if ys != [] && Precedes(algo, ys[0], x) {
      InsertTied(algo, x, ys[1..], e);
      TiedCons(algo, x, ys[1..], e);
      TiedCons(algo, ys[0], Insert(algo, x, ys[1..]), e);
      assert !(Tied(algo, x, e) && Tied(algo, ys[0], e));
    }
  }

  lemma TiedCons(algo: Algo, x: Viable, ys: seq<Viable>, e: Viable)
    ensures TiedWith(algo, [x] + ys, e) == (if Tied(algo, x, e) then [x] else []) + TiedWith(algo, ys, e)
  {
    assert ([x] + ys)[1..] == ys;
  }

  lemma {:induction false} StableSortCorrect(algo: Algo, s: seq<Viable>)
    ensures IsStableSortOf(algo, StableSort(algo, s), s)
    ensures multiset(StableSort(algo, s)) == multiset(s)
  {
    if s != [] {
      var tail := StableSort(algo, s[1..]);
      StableSortCorrect(algo, s[1..]);
      InsertMembers(algo, s[0], tail);
      InsertOrdered(algo, s[0], tail);
      assert s == [s[0]] + s[1..];
      forall e ensures TiedWith(algo, StableSort(algo, s), e) == TiedWith(algo, s, e) {
        InsertTied(algo, s[0], tail, e);
        TiedCons(algo, s[0], tail, e);
      }
    }
  }

  /** A stable sort is unique: whatever algorithm the Rust and the Go libraries use, they agree. */
  lemma {:induction false} StableSortUnique(algo: Algo, a: seq<Viable>, b: seq<Viable>)
    requires Ordered(algo, a) && Ordered(algo, b)
    requires forall e :: TiedWith(algo, a, e) == TiedWith(algo, b, e)
    ensures a == b
  {
    if a == [] {
      HeadIsTied(algo, b);
    } else {
      SameHead(algo, a, b);
      forall e ensures TiedWith(algo, a[1..], e) == TiedWith(algo, b[1..], e) {
        var h := if Tied(algo, a[0], e) then [a[0]] else [];
        assert TiedWith(algo, a, e) == h + TiedWith(algo, a[1..], e);
        assert TiedWith(algo, b, e) == h + TiedWith(algo, b[1..], e);
        assert (h + TiedWith(algo, a[1..], e))[|h|..] == TiedWith(algo, a[1..], e);
        assert (h + TiedWith(algo, b[1..], e))[|h|..] == TiedWith(algo, b[1..], e);
      }
      StableSortUnique(algo, a[1..], b[1..]);
    }
  }

  lemma HeadIsTied(algo: Algo, b: seq<Viable>)
    ensures b != [] ==> TiedWith(algo, b, b[0]) != []
  {
  }

  lemma SameHead(algo: Algo, a: seq<Viable>, b: seq<Viable>)
    requires Ordered(algo, a) && Ordered(algo, b) && a != []
    requires forall e :: TiedWith(algo, a, e) == TiedWith(algo, b, e)
    ensures b != [] && a[0] == b[0]
  {
    TiedMembers(algo, a, a[0]);
    TiedMembers(algo, b, a[0]);
    assert a[0] in TiedWith(algo, b, a[0]);
    TiedMembers(algo, b, b[0]);
    TiedMembers(algo, a, b[0]);
    assert b[0] in TiedWith(algo, a, b[0]);
    var i, j :| 0 <= i < |b| && b[i] == a[0] && 0 <= j < |a| && a[j] == b[0];
    assert Tied(algo, a[0], b[0]);
    assert TiedWith(algo, a, a[0])[0] == a[0] && TiedWith(algo, b, a[0])[0] == b[0];
  }

  ghost predicate DistinctItems(s: seq<Viable>) {
    forall i, j :: 0 <= i < j < |s| ==> s[i].id != s[j].id
  }

  /** Tied elements keep their order. */
  lemma {:induction false} TiedPositions(algo: Algo, s: seq<Viable>, e: Viable, a: nat, b: nat) returns (p: nat, q: nat)
    requires a < b < |s| && Tied(algo, s[a], e) && Tied(algo, s[b], e)
    ensures p < q < |TiedWith(algo, s, e)|
    ensures TiedWith(algo, s, e)[p] == s[a] && TiedWith(algo, s, e)[q] == s[b]
  {
    if a == 0 {
      p := 0;
      TiedMembers(algo, s[1..], e);
      assert s[1..][b - 1] == s[b];
      q :| 0 <= q < |TiedWith(algo, s[1..], e)| && TiedWith(algo, s[1..], e)[q] == s[b];
      q := q + 1;
    } else {
      p, q := TiedPositions(algo, s[1..], e, a - 1, b - 1);
      if Tied(algo, s[0], e) {
        p, q := p + 1, q + 1;
      }
    }
  }

  lemma {:induction false} TiedDistinct(algo: Algo, s: seq<Viable>, e: Viable, p: nat, q: nat)
    requires DistinctItems(s) && p < q < |TiedWith(algo, s, e)|
    ensures TiedWith(algo, s, e)[p] != TiedWith(algo, s, e)[q]
  {
    var n := if Tied(algo, s[0], e) then 1 else 0;
    var rest := TiedWith(algo, s[1..], e);
    TiedMembers(algo, s[1..], e);
    if p < n {
      assert rest[q - n] in s[1..];
    } else {
      TiedDistinct(algo, s[1..], e, p - n, q - n);
    }
  }

  /** The sorted order, exactly: of two keys the later candidate comes first if and only if it must. */
  lemma SortedExactly(algo: Algo, s: seq<Viable>, a: nat, b: nat, i: nat, j: nat)
    requires DistinctItems(s) && a < b < |s| && i < |StableSort(algo, s)| && j < |StableSort(algo, s)|
    requires StableSort(algo, s)[i] == s[a] && StableSort(algo, s)[j] == s[b]
    ensures j < i <==> Precedes(algo, s[b], s[a])
  {
    var out := StableSort(algo, s);
    StableSortCorrect(algo, s);
    hide StableSort;
    if j < i && Tied(algo, s[a], s[b]) {
      var e := s[a];
      var p, q := TiedPositions(algo, s, e, a, b);
      var q', p' := TiedPositions(algo, out, e, j, i);
      var t := TiedWith(algo, s, e);
      assert t == TiedWith(algo, out, e);
      hide TiedWith;
      if p < p' {
        TiedDistinct(algo, s, e, p, p');
      } else {
        TiedDistinct(algo, s, e, q', q);
      }
    }
  }

  // ---- Round robin ------------------------------------------------------------

  function Rotated(s: seq<Viable>, k: nat): seq<Viable>
    requires k <= |s|
  {
    s[k..] + s[..k]
  }

  /** The calls, among `m` calls starting at counter value `c`, that reserve sorted position `p`
      when `f` of `n` keys are taken each time. */
  function Hits(p: int, n: nat, f: nat, c: int, m: nat): nat
    requires n > 0
  {
    if m == 0 then 0 else Hits(p, n, f, c, m - 1) + Hit(p, n, f, c + m - 1)
  }

  function Hit(p: int, n: nat, f: nat, c: int): nat
    requires n > 0
  {
    if (p - c) % n < f then 1 else 0
  }

  /** What one call really takes: position `p` of the sorted keys is in the prefix of length `f`
      exactly when `Hit` says so. */
  lemma PrefixIsHit(s: seq<Viable>, p: nat, f: nat, c: nat)
    requires p < |s| && f <= |s|
    requires forall i, j :: 0 <= i < j < |s| ==> s[i].id != s[j].id
    ensures (exists i :: 0 <= i < f && Rotated(s, c % |s|)[i].id == s[p].id) <==> Hit(p, |s|, f, c) == 1
  {
    var n := |s|;
    var r := c % n;
    var slot := if p >= r then p - r else p - r + n;
    assert (p - c) % n == slot by {
      ModOf(p - c, n, slot, if p >= r then -(c / n) else -(c / n) - 1);
    }
    assert Rotated(s, r)[slot] == s[p];
    forall i | 0 <= i < f && Rotated(s, r)[i].id == s[p].id ensures i == slot {
      var q := if i < n - r then i + r else i + r - n;
      assert Rotated(s, r)[i] == s[q];
      assert q == p;
    }
  }

  lemma ModOf(x: int, n: int, r: int, q: int)
    requires n > 0 && 0 <= r < n && x == q * n + r
    ensures x % n == r
  {
    var q0, r0 := x / n, x % n;
    assert x == q0 * n + r0;
    assert (q0 - q) * n == r - r0;
    assert q0 - q >= 1 ==> (q0 - q) * n >= n;
    assert q0 - q <= -1 ==> (q0 - q) * n <= -n;
  }

  lemma HitPeriodic(p: int, n: nat, f: nat, c: int)
    requires n > 0
    ensures Hit(p, n, f, c) == Hit(p, n, f, c + n)
  {
    var q, r := (p - c) / n, (p - c) % n;
    ModOf(p - (c + n), n, r, q - 1);
  }

  lemma {:induction false} HitsFront(p: int, n: nat, f: nat, c: int, m: nat)
    requires n > 0
    ensures Hits(p, n, f, c, m + 1) == Hit(p, n, f, c) + Hits(p, n, f, c + 1, m)
  {
    if m > 0 {
      HitsFront(p, n, f, c, m - 1);
      assert c + 1 + (m - 1) == c + (m + 1) - 1;
    }
  }

  /** A window of `n` calls may slide by one. */
  lemma HitsSlide(p: int, n: nat, f: nat, c: int)
    requires n > 0
    ensures Hits(p, n, f, c, n) == Hits(p, n, f, c + 1, n)
  {
    HitsFront(p, n, f, c, n);
    HitPeriodic(p, n, f, c);
  }

  lemma {:induction false} HitsAligned(p: int, n: nat, f: nat, m: nat)
    requires n > 0 && f <= n && m <= n
    ensures Hits(p, n, f, p + 1 - n, m) == if m <= n - f then 0 else m - (n - f)
  {
    if m > 0 {
      HitsAligned(p, n, f, m - 1);
      ModOf(p - (p + 1 - n + m - 1), n, n - m, 0);
    }
  }

  /** Over any `n` consecutive calls every key is reserved exactly `f` times. */
  lemma {:induction false} FairRound(p: int, n: nat, f: nat, c: int)
    requires n > 0 && f <= n
    ensures Hits(p, n, f, c, n) == f
    decreases if c >= p + 1 - n then c - (p + 1 - n) else p + 1 - n - c
  {
    if c == p + 1 - n {
      HitsAligned(p, n, f, n);
    } else if c > p + 1 - n {
      FairRound(p, n, f, c - 1);
      HitsSlide(p, n, f, c - 1);
    } else {
      FairRound(p, n, f, c + 1);
      HitsSlide(p, n, f, c);
    }
  }

  lemma {:induction false} HitsSplit(p: int, n: nat, f: nat, c: int, a: nat, b: nat)
    requires n > 0
    ensures Hits(p, n, f, c, a + b) == Hits(p, n, f, c, a) + Hits(p, n, f, c + a, b)
  {
    if b > 0 {
      HitsSplit(p, n, f, c, a, b - 1);
      assert a + b - 1 == a + (b - 1);
      assert c + (a + b) - 1 == c + a + b - 1;
    }
  }

  lemma {:induction false} HitsAtMost(p: int, n: nat, f: nat, c: int, m: nat)
    requires n > 0
    ensures Hits(p, n, f, c, m) <= m
  {
    if m > 0 {
      HitsAtMost(p, n, f, c, m - 1);
    }
  }

  lemma OneMore(a: int, b: int)
    ensures a * b == (a - 1) * b + b
  {
  }

  /** After any number of calls, `rounds` full rounds and `extra` more, no key is more than one
      partial round ahead. With `f == 1` this is floor or ceiling of calls over keys. */
  lemma {:induction false} FairAlways(p: int, n: nat, f: nat, c: int, rounds: nat, extra: nat)
    requires n > 0 && f <= n && extra < n
    ensures var got := Hits(p, n, f, c, rounds * n + extra);
            rounds * f <= got <= rounds * f + extra && got <= (rounds + 1) * f
    decreases rounds
  {
    if rounds == 0 {
      HitsAtMost(p, n, f, c, extra);
      HitsSplit(p, n, f, c, extra, n - extra);
      FairRound(p, n, f, c);
    } else {
      FairAlways(p, n, f, c + n, rounds - 1, extra);
      var calls := (rounds - 1) * n + extra;
      HitsSplit(p, n, f, c, n, calls);
      OneMore(rounds, n);
      OneMore(rounds, f);
      OneMore(rounds + 1, f);
      assert n + calls == rounds * n + extra;
      FairRound(p, n, f, c);
      hide Hits;
    }
  }

  // ---- Weighted shuffle -------------------------------------------------------

  function Prefix(items: seq<Viable>, i: nat): real
    requires i <= |items|
  {
    if i == 0 then 0.0 else Prefix(items, i - 1) + items[i - 1].score
  }

  function Total(items: seq<Viable>): real {
    Prefix(items, |items|)
  }

  /** The first index from `i` on whose running total reaches `pick`; 0 if there is none. */
  function FirstReaching(items: seq<Viable>, pick: real, i: nat): (k: nat)
    ensures items != [] ==> k < |items|
    decreases |items| - i
  {
    if i >= |items| then 0
    else if Prefix(items, i + 1) >= pick then i
    else FirstReaching(items, pick, i + 1)
  }

  function Chosen(items: seq<Viable>, u: real): (k: nat)
    ensures items != [] ==> k < |items|
  {
    FirstReaching(items, Target(items, u), 0)
  }

  function Target(items: seq<Viable>, u: real): real {
    u * Total(items)
  }

  function Without(items: seq<Viable>, k: nat): seq<Viable>
    requires k < |items|
  {
    items[..k] + items[k + 1..]
  }

  function Shuffled(items: seq<Viable>, draws: seq<real>): seq<Viable>
    requires |draws| >= |items|
    decreases |items|
  {
    if items == [] then []
    else var k := Chosen(items, draws[0]); [items[k]] + Shuffled(Without(items, k), draws[1..])
  }

  /** One weighted draw: the first item at which the running total reaches `u` times the total. */
  method Pick(items: seq<Viable>, u: real) returns (chosen: nat)
    ensures chosen == Chosen(items, u)
  {
    var remWeight := 0.0;
    for i := 0 to |items|
      invariant remWeight == Prefix(items, i)
    {
      remWeight := remWeight + items[i].score;
    }
    var pick := u * remWeight;
    var accum, i := 0.0, 0;
    assert pick == Target(items, u);
    while i < |items|
      invariant 0 <= i <= |items| && accum == Prefix(items, i)
      invariant Chosen(items, u) == FirstReaching(items, pick, i)
    {
      accum := accum + items[i].score;
      if accum >= pick {
        return i;
      }
      i := i + 1;
    }
    chosen := 0;
  }

  /** reserve.rs `weighted_shuffle` and scheduler.go `weightedShuffle`: `draws` are the random
      numbers in the order they are taken. */
  method WeightedShuffle(input: seq<Viable>, draws: seq<real>) returns (result: seq<Viable>)
    requires |draws| >= |input|
    ensures result == Shuffled(input, draws)
  {
    var items := input;
    result := [];
    var d := 0;
    while items != []
      invariant d + |items| == |input|
      invariant result + Shuffled(items, draws[d..]) == Shuffled(input, draws)
      decreases |items|
    {
      var chosen := Pick(items, draws[d]);
      NextShuffled(result, items, draws[d..]);
      assert draws[d..][1..] == draws[d + 1..];
      hide Shuffled, Without, Chosen;
      result := result + [items[chosen]];
      items := items[..chosen] + items[chosen + 1..];
      d := d + 1;
    }
  }

  lemma NextShuffled(result: seq<Viable>, items: seq<Viable>, draws: seq<real>)
    requires items != [] && |draws| >= |items|
    ensures var k := Chosen(items, draws[0]);
            result + Shuffled(items, draws)
            == result + [items[k]] + Shuffled(items[..k] + items[k + 1..], draws[1..])
  {
    hide Chosen;
  }

  lemma {:induction false} ShuffledIsPermutation(items: seq<Viable>, draws: seq<real>)
    requires |draws| >= |items|
    ensures multiset(Shuffled(items, draws)) == multiset(items)
    decreases |items|
  {
    if items != [] {
      var k := Chosen(items, draws[0]);
      ShuffledIsPermutation(Without(items, k), draws[1..]);
      assert items == items[..k] + [items[k]] + items[k + 1..];
    }
  }

  ghost predicate Scored(items: seq<Viable>) {
    forall i :: 0 <= i < |items| ==> items[i].score >= 1.0
  }

  lemma {:induction false} PrefixIncreasing(items: seq<Viable>, i: nat, j: nat)
    requires Scored(items) && i <= j <= |items|
    ensures Prefix(items, i) + (j - i) as real <= Prefix(items, j)
  {
    if i < j {
      PrefixIncreasing(items, i, j - 1);
    }
  }

  lemma {:induction false} ReachedFrom(items: seq<Viable>, pick: real, i: nat, k: nat)
    requires Scored(items) && i <= k < |items| && pick <= Total(items)
    requires i == 0 || Prefix(items, i) < pick
    ensures FirstReaching(items, pick, i) == k
       <==> ((k == 0 || Prefix(items, k) < pick) && pick <= Prefix(items, k + 1))
    decreases |items| - i
  {
    PrefixIncreasing(items, i + 1, |items|);
    if Prefix(items, i + 1) >= pick {
      PrefixIncreasing(items, i + 1, if k > i then k else i + 1);
    } else if i < k {
      ReachedFrom(items, pick, i + 1, k);
    } else {
      ReachesBeyond(items, pick, i + 1);
    }
  }

  lemma {:induction false} ReachesBeyond(items: seq<Viable>, pick: real, i: nat)
    requires i <= |items| && pick <= Total(items) && Prefix(items, i) < pick
    ensures FirstReaching(items, pick, i) >= i
    decreases |items| - i
  {
    if i < |items| && Prefix(items, i + 1) < pick {
      ReachesBeyond(items, pick, i + 1);
    }
  }

  /** For a draw in [0,1) the scan never falls through, and item `k` is chosen exactly for the
      draws in an interval of length score / total, which is positive for every item. */
  lemma ChosenInterval(items: seq<Viable>, u: real, k: nat)
    requires Scored(items) && k < |items| && 0.0 <= u < 1.0
    ensures Total(items) > 0.0
    ensures var w, low, high := Total(items), Prefix(items, k), Prefix(items, k + 1);
            (Chosen(items, u) == k <==> (k == 0 || low / w < u) && u <= high / w)
            && high / w - low / w == items[k].score / w > 0.0
  {
    var w, low, high := Total(items), Prefix(items, k), Prefix(items, k + 1);
    ChosenRange(items, u, k);
    assert high == low + items[k].score;
    hide Prefix, FirstReaching, Chosen, Total, Target;
    Scale(low, u, w);
    Scale(high, u, w);
    Quotients(low, items[k].score, w);
  }

  lemma ChosenRange(items: seq<Viable>, u: real, k: nat)
    requires Scored(items) && k < |items| && 0.0 <= u < 1.0
    ensures Total(items) > 0.0
    ensures var w := Total(items);
            Chosen(items, u) == k <==> (k == 0 || Prefix(items, k) < u * w) && u * w <= Prefix(items, k + 1)
  {
    PrefixIncreasing(items, 0, |items|);
    hide Prefix, FirstReaching;
    Shrinks(u, Total(items));
    ReachedFrom(items, Target(items, u), 0, k);
  }

  lemma Shrinks(u: real, w: real)
    requires 0.0 <= u < 1.0 && w > 0.0
    ensures u * w <= w
  {
    assert (1.0 - u) * w >= 0.0;
  }

  lemma Scale(p: real, u: real, w: real)
    requires w > 0.0
    ensures p < u * w <==> p / w < u
    ensures u * w <= p <==> u <= p / w
  {
    var q := p / w;
    assert q * w == p;
    assert q < u ==> q * w < u * w;
    assert q > u ==> q * w > u * w;
  }

  lemma Quotients(p: real, s: real, w: real)
    requires w > 0.0 && s > 0.0
    ensures (p + s) / w - p / w == s / w && s / w > 0.0
  {
  }

  // ---- The whole order --------------------------------------------------------

  /** The score of the items before position `k` that are not among the positions `placed`. */
  function Weight(items: seq<Viable>, placed: seq<nat>, k: nat): real
    requires k <= |items|
  {
    if k == 0 then 0.0
    else Weight(items, placed, k - 1) + if k - 1 in placed then 0.0 else items[k - 1].score
  }

  /** The draw lies in the interval of item `k`: of the remaining weight, from the share of the remaining
      items before it, which the first of them has as well, up to that share and its own. */
  predicate Drawn(items: seq<Viable>, placed: seq<nat>, k: nat, u: real)
    requires k < |items|
  {
    var w, low := Weight(items, placed, |items|), Weight(items, placed, k);
    k !in placed && w > 0.0 && (low == 0.0 || low / w < u) && u <= (low + items[k].score) / w
  }

  /** Position `j` of the items without item `k`, as a position of all items. */
  function Lift(j: nat, k: nat): nat {
    if j < k then j else j + 1
  }

  function LiftAll(js: seq<nat>, k: nat): seq<nat> {
    seq(|js|, i requires 0 <= i < |js| => Lift(js[i], k))
  }

  lemma {:induction false} WeightLifts(items: seq<Viable>, k: nat, js: seq<nat>, j: nat)
    requires k < |items| && j < |items|
    ensures Weight(items, [k] + LiftAll(js, k), Lift(j, k)) == Weight(Without(items, k), js, j)
  {
    var placed := [k] + LiftAll(js, k);
    if j == 0 {
      assert k == 0 ==> Weight(items, placed, 1) == Weight(items, placed, 0);
    } else {
      WeightLifts(items, k, js, j - 1);
      LiftedIn(js, j - 1, k);
      assert Without(items, k)[j - 1] == items[Lift(j - 1, k)];
      assert j == k ==> Weight(items, placed, k + 1) == Weight(items, placed, k);
    }
  }

  lemma LiftedIn(js: seq<nat>, j: nat, k: nat)
    ensures Lift(j, k) in [k] + LiftAll(js, k) <==> j in js
  {
    var lifted := LiftAll(js, k);
    if j in js {
      var i :| 0 <= i < |js| && js[i] == j;
      assert lifted[i] == Lift(j, k);
    }
    if Lift(j, k) in [k] + lifted {
      var i :| 0 <= i < |lifted| && lifted[i] == Lift(j, k);
      assert js[i] == j;
    }
  }

  lemma {:induction false} NothingPlaced(items: seq<Viable>, k: nat)
    requires k <= |items|
    ensures Weight(items, [], k) == Prefix(items, k)
  {
    if k > 0 {
      NothingPlaced(items, k - 1);
    }
  }

  lemma {:induction false} WeightGrows(items: seq<Viable>, placed: seq<nat>, i: nat, j: nat)
    requires Scored(items) && i <= j <= |items|
    ensures Weight(items, placed, i) <= Weight(items, placed, j)
    ensures i < j && i !in placed ==> Weight(items, placed, i) + items[i].score <= Weight(items, placed, j)
    decreases j
  {
    if i < j {
      WeightGrows(items, placed, i, j - 1);
    }
  }

  /** No draw lies in the intervals of two items. */
  lemma DrawnOnce(items: seq<Viable>, placed: seq<nat>, j: nat, k: nat, u: real)
    requires Scored(items) && j < |items| && k < |items| && Drawn(items, placed, j, u) && Drawn(items, placed, k, u)
    ensures j == k
  {
    if j < k {
      Apart(items, placed, j, k, u);
    } else if k < j {
      Apart(items, placed, k, j, u);
    }
  }

  lemma Apart(items: seq<Viable>, placed: seq<nat>, j: nat, k: nat, u: real)
    requires Scored(items) && j < k < |items| && Drawn(items, placed, j, u)
    ensures !Drawn(items, placed, k, u)
  {
    WeightGrows(items, placed, 0, j);
    WeightGrows(items, placed, j, k);
    var w, high, low := Weight(items, placed, |items|), Weight(items, placed, j) + items[j].score,
      Weight(items, placed, k);
    hide Weight;
    Shares(high, low, w);
  }

  lemma Shares(a: real, b: real, w: real)
    requires a <= b && w > 0.0
    ensures a / w <= b / w
  {
    Scale(b, a / w, w);
    assert a / w * w == a;
  }

  predicate UnitDraws(draws: seq<real>, n: nat)
    requires |draws| >= n
  {
    forall i :: 0 <= i < n ==> 0.0 <= draws[i] < 1.0
  }

  /** `out` places the items in the order of `positions`, and in every round the item in whose interval the
      round's draw lies. */
  predicate PlacedByDraws(items: seq<Viable>, draws: seq<real>, positions: seq<nat>, out: seq<Viable>) {
    && |positions| == |items| == |out| <= |draws|
    && (forall i :: 0 <= i < |items| ==> positions[i] < |items| && out[i] == items[positions[i]])
    && (forall i :: 0 <= i < |items| ==> Drawn(items, positions[..i], positions[i], draws[i]))
  }

  /** The whole order of the weighted shuffle, for draws in [0,1): `positions` are those of the items in
      the order they come out. No item comes out twice, and each round's interval holds the draw for one
      remaining item only, so the draws determine the order. Equal items are told apart by position. */
  lemma ShuffledExactly(items: seq<Viable>, draws: seq<real>) returns (positions: seq<nat>)
    requires Scored(items) && |draws| >= |items| && UnitDraws(draws, |items|)
    ensures PlacedByDraws(items, draws, positions, Shuffled(items, draws))
    ensures forall i, k: nat :: 0 <= i < |items| && k < |items| && Drawn(items, positions[..i], k, draws[i]) ==>
              k == positions[i]
  {
    positions := Placing(items, draws);
    forall i, k: nat | 0 <= i < |items| && k < |items| && Drawn(items, positions[..i], k, draws[i])
      ensures k == positions[i]
    {
      hide Drawn, Shuffled;
      DrawnOnce(items, positions[..i], positions[i], k, draws[i]);
    }
  }

  lemma {:induction false} Placing(items: seq<Viable>, draws: seq<real>) returns (positions: seq<nat>)
    requires Scored(items) && |draws| >= |items| && UnitDraws(draws, |items|)
    ensures PlacedByDraws(items, draws, positions, Shuffled(items, draws))
    decreases |items|
  {
    positions := [];
    if items != [] {
      var k := Chosen(items, draws[0]);
      var js := Placing(Without(items, k), draws[1..]);
      positions := [k] + LiftAll(js, k);
      FirstDrawn(items, draws[0]);
      assert Shuffled(items, draws) == [items[k]] + Shuffled(Without(items, k), draws[1..]);
      hide Chosen, Shuffled, PlacedByDraws;
      PlacingMore(items, draws, k, js, Shuffled(Without(items, k), draws[1..]));
    }
  }

  lemma PlacingMore(items: seq<Viable>, draws: seq<real>, k: nat, js: seq<nat>, out: seq<Viable>)
    requires |draws| > 0 && k < |items| && Drawn(items, [], k, draws[0])
    requires PlacedByDraws(Without(items, k), draws[1..], js, out)
    ensures PlacedByDraws(items, draws, [k] + LiftAll(js, k), [items[k]] + out)
  {
    var positions := [k] + LiftAll(js, k);
    hide Drawn;
    forall i | 0 <= i < |items|
      ensures positions[i] < |items| && ([items[k]] + out)[i] == items[positions[i]]
      ensures Drawn(items, positions[..i], positions[i], draws[i])
    {
      if i == 0 {
        assert positions[..0] == [];
      } else {
        LaterDrawn(items, k, js, i - 1, draws[i]);
        assert positions[..i] == [k] + LiftAll(js[..i - 1], k);
        assert out[i - 1] == Without(items, k)[js[i - 1]] == items[Lift(js[i - 1], k)];
      }
    }
  }

  lemma FirstDrawn(items: seq<Viable>, u: real)
    requires Scored(items) && items != [] && 0.0 <= u < 1.0
    ensures Drawn(items, [], Chosen(items, u), u)
  {
    var k := Chosen(items, u);
    ChosenInterval(items, u, k);
    NothingPlaced(items, |items|);
    NothingPlaced(items, k);
    hide Prefix, Chosen, Weight;
    assert k == 0 ==> Prefix(items, k) == 0.0;
  }

  lemma LaterDrawn(items: seq<Viable>, k: nat, js: seq<nat>, i: nat, u: real)
    requires k < |items| && i < |js| && js[i] < |items| - 1
    requires Drawn(Without(items, k), js[..i], js[i], u)
    ensures Lift(js[i], k) < |items| && Drawn(items, [k] + LiftAll(js[..i], k), Lift(js[i], k), u)
  {
    WeightLifts(items, k, js[..i], js[i]);
    WeightLifts(items, k, js[..i], |items| - 1);
    LiftedIn(js[..i], js[i], k);
    assert k < |items| - 1 || Weight(items, [k] + LiftAll(js[..i], k), |items|)
      == Weight(items, [k] + LiftAll(js[..i], k), |items| - 1);
    assert Without(items, k)[js[i]] == items[Lift(js[i], k)];
    hide Weight, LiftAll;
  }

  // ---- Dispatch on the algorithm ----------------------------------------------

  /** reserve.rs `select_by_algo`. */
  function Order(algo: Algo, viable: seq<Viable>, rr: nat, draws: seq<real>): seq<Viable>
    requires |draws| >= |viable|
  {
    match algo
    case WeightedRandom => Shuffled(viable, draws)
    case RoundRobin =>
      var s := StableSort(algo, viable);
      if s == [] then [] else Rotated(s, rr % |s|)
    case _ => StableSort(algo, viable)
  }

  lemma OrderIsPermutation(algo: Algo, viable: seq<Viable>, rr: nat, draws: seq<real>)
    requires |draws| >= |viable|
    ensures multiset(Order(algo, viable, rr, draws)) == multiset(viable)
    ensures |Order(algo, viable, rr, draws)| == |viable|
  {
    if algo == WeightedRandom {
      ShuffledIsPermutation(viable, draws);
    } else {
      var s := StableSort(algo, viable);
      StableSortCorrect(algo, viable);
      SameLength(s, viable);
      if algo == RoundRobin && viable != [] {
        assert s == s[..rr % |s|] + s[rr % |s|..];
      }
    }
    SameLength(Order(algo, viable, rr, draws), viable);
  }

  lemma SameLength(a: seq<Viable>, b: seq<Viable>)
    requires multiset(a) == multiset(b)
    ensures |a| == |b|
  {
    assert |multiset(a)| == |a| && |multiset(b)| == |b|;
  }
}
