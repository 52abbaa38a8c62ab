/**
 Swarm rebalancing as a best-response search over placements of the servers' spans. Throughputs are
 exact reals; the arithmetic of the search is the program's own, with its eps.
 */
module Placements {
  import opened SortedWindows

  const EPS: real := 0.001

  /**
   What never changes while spans move: block count, span lengths and server throughputs. Announcements may
   give a server an empty span, or one that ends before it starts, whose length is negative.
   */
  datatype Swarm = Swarm(blocks: nat, lengths: seq<int>, rates: seq<real>) {
    ghost predicate Valid() {
      && |lengths| == |rates|
      && (forall i | 0 <= i < |lengths| :: lengths[i] <= blocks)
      && (forall i | 0 <= i < |rates| :: rates[i] >= 0.0)
    }
  }

  /** Where a slice of n elements ends: a negative end counts from the back, as in Python. */
  function SliceEnd(n: nat, end: int): (r: nat)
    ensures r <= n
  {
    if end >= 0 then (if end < n then end else n) else if n + end > 0 then n + end else 0
  }

  function Slice(t: seq<real>, start: nat, end: int): seq<real> {
    var e := SliceEnd(|t|, end);
    if start < e then t[start..e] else []
  }

  /** A span lies inside the model, or it is reversed and the slice of its blocks is empty. */
  predicate IsPlace(blocks: nat, length: int, start: nat) {
    if length >= 0 then start + length <= blocks else SliceEnd(blocks, start + length) <= start
  }

  /** A placement gives each server the first block of its span. */
  ghost predicate IsPlacement(w: Swarm, p: seq<nat>)
    requires w.Valid()
  {
    && |p| == |w.lengths|
    && forall i | 0 <= i < |p| :: IsPlace(w.blocks, w.lengths[i], p[i])
  }

  predicate Serves(start: nat, length: int, b: int) {
    start <= b < start + length
  }

  /** Throughput that the first k servers give to block b. */
  function LoadOfFirst(w: Swarm, p: seq<nat>, k: nat, b: int): real
    requires k <= |p| && k <= |w.lengths| && k <= |w.rates|
  {
    if k == 0 then 0.0
    else LoadOfFirst(w, p, k - 1, b) + if Serves(p[k - 1], w.lengths[k - 1], b) then w.rates[k - 1] else 0.0
  }

  /** The throughput array recomputed from scratch. */
  ghost function Loads(w: Swarm, p: seq<nat>): (r: seq<real>)
    requires w.Valid() && IsPlacement(w, p)
    ensures |r| == w.blocks
  {
    seq(w.blocks, b => LoadOfFirst(w, p, |p|, b))
  }

  /** The throughput array with a little more than the server's own share taken out. */
  ghost function Base(w: Swarm, p: seq<nat>, i: nat): (r: seq<real>)
    requires w.Valid() && IsPlacement(w, p) && i < |p|
    ensures |r| == w.blocks
  {
    Shifted(Loads(w, p), p[i], w.lengths[i], -(w.rates[i] * (1.0 + EPS)))
  }

  /** Adds x on one window. */
  function Shifted(t: seq<real>, start: nat, length: int, x: real): (r: seq<real>)
    ensures |r| == |t|
  {
    seq(|t|, b requires 0 <= b < |t| => if Serves(start, length, b) then t[b] + x else t[b])
  }

  function Window(t: seq<real>, start: nat, length: nat): seq<real>
    requires start + length <= |t|
  {
    t[start..start + length]
  }

  /** The smaller of two options (sorted slice, start). */
  predicate Better(t: seq<real>, length: int, i: nat, j: nat) {
    var a, b := SortedCopy(Slice(t, i, i + length)), SortedCopy(Slice(t, j, j + length));
    LexLess(a, b) || (a == b && i < j)
  }

  /** The least option among the starts 0..last. */
  function BestUpTo(t: seq<real>, length: int, last: nat): (r: nat)
    ensures r <= last
  {
    if last == 0 then 0
    else
      var r := BestUpTo(t, length, last - 1);
      if Better(t, length, last, r) then last else r
  }

  function BestStart(t: seq<real>, length: int): (r: nat)
    requires length <= |t|
    ensures r + length <= |t|
  {
    BestUpTo(t, length, |t| - length)
  }

  ghost function WindowBag(t: seq<real>, start: nat, length: nat): multiset<real>
    requires start + length <= |t|
  {
    multiset(Window(t, start, length))
  }

  lemma BetterMeansLower(t: seq<real>, length: nat, i: nat, j: nat)
    requires i + length <= |t| && j + length <= |t|
    ensures Better(t, length, i, j) ==> !Lower(WindowBag(t, j, length), WindowBag(t, i, length))
    ensures !Better(t, length, i, j) ==> !Lower(WindowBag(t, i, length), WindowBag(t, j, length))
  {
    hide *;
    BetterCompares(t, length, i, j);
    SliceIsWindow(t, i, length);
    SliceIsWindow(t, j, length);
    SortedOrder(SortedCopy(Slice(t, i, i + length)), SortedCopy(Slice(t, j, j + length)));
  }

  lemma BetterCompares(t: seq<real>, length: int, i: nat, j: nat)
    ensures var a, b := SortedCopy(Slice(t, i, i + length)), SortedCopy(Slice(t, j, j + length));
            Better(t, length, i, j) <==> LexLess(a, b) || (a == b && i < j)
  {
  }

  lemma SliceIsWindow(t: seq<real>, i: nat, length: nat)
    requires i + length <= |t|
    ensures |Slice(t, i, i + length)| == length && multiset(Slice(t, i, i + length)) == WindowBag(t, i, length)
  {
    assert Slice(t, i, i + length) == Window(t, i, length);
  }

  lemma SortedOrder(a: seq<real>, b: seq<real>)
    requires IsSorted(a) && IsSorted(b) && |a| == |b|
    ensures LexLess(a, b) || a == b ==> !Lower(multiset(b), multiset(a))
    ensures !LexLess(a, b) ==> !Lower(multiset(a), multiset(b))
  {
    LexLessIsLower(a, b);
    if Lower(multiset(a), multiset(b)) {
      LowerIsAsymmetric(multiset(a), multiset(b));
    }
    LowerIsIrreflexive(multiset(a));
  }

  lemma LexLessIsTotal(a: seq<real>, b: seq<real>)
    ensures LexLess(a, b) || a == b || LexLess(b, a)
  {
    if a != [] && b != [] {
      LexLessIsTotal(a[1..], b[1..]);
      assert a == [a[0]] + a[1..] && b == [b[0]] + b[1..];
    }
  }

  lemma LexLessIsTransitive(a: seq<real>, b: seq<real>, c: seq<real>)
    requires LexLess(a, b) && LexLess(b, c)
    ensures LexLess(a, c)
  {
    if a != [] && a[0] == b[0] == c[0] {
      LexLessIsTransitive(a[1..], b[1..], c[1..]);
    }
  }

  lemma LexLessIsIrreflexive(a: seq<real>)
    ensures !LexLess(a, a)
  {
  }

  lemma BetterIsTransitive(t: seq<real>, length: int, i: nat, j: nat, k: nat)
    requires Better(t, length, i, j) && Better(t, length, j, k)
    ensures Better(t, length, i, k)
  {
    var a, b := SortedCopy(Slice(t, i, i + length)), SortedCopy(Slice(t, j, j + length));
    var c := SortedCopy(Slice(t, k, k + length));
    if LexLess(a, b) && LexLess(b, c) {
      LexLessIsTransitive(a, b, c);
    }
  }

  lemma BetterIsTotal(t: seq<real>, length: int, i: nat, j: nat)
    requires i != j
    ensures Better(t, length, i, j) || Better(t, length, j, i)
  {
    LexLessIsTotal(SortedCopy(Slice(t, i, i + length)), SortedCopy(Slice(t, j, j + length)));
  }

  lemma BetterIsAsymmetric(t: seq<real>, length: int, i: nat, j: nat)
    requires Better(t, length, i, j)
    ensures !Better(t, length, j, i)
  {
    var a, b := SortedCopy(Slice(t, i, i + length)), SortedCopy(Slice(t, j, j + length));
    LexLessIsIrreflexive(a);
    if LexLess(a, b) && LexLess(b, a) {
      LexLessIsTransitive(a, b, a);
    }
  }

  /** The chosen start beats every other start. */
  lemma {:induction false} BestBeatsOthers(t: seq<real>, length: int, last: nat, j: nat)
    requires j <= last && j != BestUpTo(t, length, last)
    ensures Better(t, length, BestUpTo(t, length, last), j)
  {
    hide Better;
    if last > 0 {
      var r := BestUpTo(t, length, last - 1);
      if Better(t, length, last, r) {
        if j < last && j != r {
          BestBeatsOthers(t, length, last - 1, j);
          BetterIsTransitive(t, length, last, r, j);
        }
      } else if j < last {
        BestBeatsOthers(t, length, last - 1, j);
      } else {
        BetterIsTotal(t, length, last, r);
      }
    }
  }

  /** Where a server without blocks comes to rest: at the first start whose slice is empty. */
  function ParkingPlace(blocks: nat, length: int): (r: nat)
    requires length <= 0
    ensures r <= blocks && IsPlace(blocks, length, r)
  {
    if -length < blocks then -length else 0
  }

  lemma ParkingPlaceIsBest(t: seq<real>, length: int)
    requires length <= 0
    ensures BestStart(t, length) == ParkingPlace(|t|, length)
  {
    hide *;
    var x, r := ParkingPlace(|t|, length), BestStart(t, length);
    ParkingPlaceIsOption(t, length);
    if r != x {
      ParkingPlaceBeats(t, length, r);
      BestBeatsOthers(t, length, |t| - length, x);
      BetterIsAsymmetric(t, length, x, r);
    }
  }

  lemma ParkingPlaceIsOption(t: seq<real>, length: int)
    requires length <= 0
    ensures ParkingPlace(|t|, length) <= |t| - length && BestStart(t, length) == BestUpTo(t, length, |t| - length)
  {
  }

  lemma ParkingPlaceBeats(t: seq<real>, length: int, r: nat)
    requires length <= 0 && r != ParkingPlace(|t|, length)
    ensures Better(t, length, ParkingPlace(|t|, length), r)
  {
    FirstEmptySlice(t, length, r);
    BetterCompares(t, length, ParkingPlace(|t|, length), r);
    hide *;
    EmptyComesFirst(SortedCopy(Slice(t, r, r + length)));
  }

  lemma FirstEmptySlice(t: seq<real>, length: int, r: nat)
    requires length <= 0
    ensures var x := ParkingPlace(|t|, length);
            && SortedCopy(Slice(t, x, x + length)) == []
            && (r < x ==> SortedCopy(Slice(t, r, r + length)) != [])
  {
    hide SortedCopy;
    var x := ParkingPlace(|t|, length);
    assert Slice(t, x, x + length) == [] && (r < x ==> Slice(t, r, r + length) != []);
  }

  lemma EmptyComesFirst(a: seq<real>)
    ensures LexLess([], a) || a == []
  {
  }

  lemma BestIsPlace(t: seq<real>, length: int)
    requires length <= |t|
    ensures IsPlace(|t|, length, BestStart(t, length))
  {
    if length < 0 {
      ParkingPlaceIsBest(t, length);
    }
  }

  /** The chosen window is never above the window the server holds now. */
  lemma BestIsNotHigher(t: seq<real>, length: nat, j: nat)
    requires j + length <= |t|
    ensures !Lower(WindowBag(t, j, length), WindowBag(t, BestStart(t, length), length))
  {
    hide Better;
    var r := BestStart(t, length);
    if r == j {
      LowerIsIrreflexive(WindowBag(t, j, length));
    } else {
      BestBeatsOthers(t, length, |t| - length, j);
      BetterMeansLower(t, length, r, j);
    }
  }

  // ----- one move -----

  ghost function BestResponse(w: Swarm, p: seq<nat>, i: nat): (r: nat)
    requires w.Valid() && IsPlacement(w, p) && i < |p|
    ensures IsPlace(w.blocks, w.lengths[i], r)
  {
    BestIsPlace(Base(w, p, i), w.lengths[i]);
    BestStart(Base(w, p, i), w.lengths[i])
  }

  ghost function Move(w: Swarm, p: seq<nat>, i: nat, start: nat): (r: seq<nat>)
    requires w.Valid() && IsPlacement(w, p) && i < |p| && IsPlace(w.blocks, w.lengths[i], start)
    ensures IsPlacement(w, r)
  {
    p[i := start]
  }

  lemma {:induction false} LoadAfterMove(w: Swarm, p: seq<nat>, i: nat, start: nat, k: nat, b: int)
    requires w.Valid() && IsPlacement(w, p) && i < |p| && IsPlace(w.blocks, w.lengths[i], start) && k <= |p|
    ensures LoadOfFirst(w, Move(w, p, i, start), k, b)
         == LoadOfFirst(w, p, k, b)
            + (if i < k && Serves(start, w.lengths[i], b) then w.rates[i] else 0.0)
            - (if i < k && Serves(p[i], w.lengths[i], b) then w.rates[i] else 0.0)
  {
    if k > 0 {
      LoadAfterMove(w, p, i, start, k - 1, b);
    }
  }

  /** The in-place edits of the array around a move amount to recomputing it. */
  lemma LoadsAfterMove(w: Swarm, p: seq<nat>, i: nat, start: nat)
    requires w.Valid() && IsPlacement(w, p) && i < |p| && IsPlace(w.blocks, w.lengths[i], start)
    ensures Shifted(Shifted(Base(w, p, i), p[i], w.lengths[i], w.rates[i] * EPS), start, w.lengths[i], w.rates[i])
         == Loads(w, Move(w, p, i, start))
  {
    var kept := Shifted(Base(w, p, i), p[i], w.lengths[i], w.rates[i] * EPS);
    var edited := Shifted(kept, start, w.lengths[i], w.rates[i]);
    forall b | 0 <= b < w.blocks ensures edited[b] == Loads(w, Move(w, p, i, start))[b] {
      LoadAfterMove(w, p, i, start, |p|, b);
      assert w.rates[i] * (1.0 + EPS) == w.rates[i] + w.rates[i] * EPS;
    }
  }

  function Raised(t: seq<real>, x: real): (r: seq<real>)
    ensures |r| == |t|
  {
    seq(|t|, b requires 0 <= b < |t| => t[b] + x)
  }

  /** Leaving a stretches of blocks for b, where b was not above a, raises the least throughput involved. */
  lemma StretchesRise(a: seq<real>, b: seq<real>, rate: real, e: real)
    requires rate > 0.0 && e > 0.0 && b != []
    requires !Lower(multiset(a), multiset(b))
    ensures Lower(multiset(Raised(a, rate + e)) + multiset(b), multiset(Raised(a, e)) + multiset(Raised(b, rate)))
  {
    assert b[0] in multiset(b);
    var least := Minimum(multiset(b), b[0]);
    NotLowerKeepsMinimum(multiset(a), multiset(b), least);
    AllAbove(a, least, rate + e);
    AllAbove(a, least, e);
    AllAbove(b, least, rate);
    assert LowerAt(multiset(Raised(a, rate + e)) + multiset(b),
                   multiset(Raised(a, e)) + multiset(Raised(b, rate)), least);
  }

  lemma AllAbove(t: seq<real>, least: real, x: real)
    requires forall u | u in multiset(t) :: least <= u
    ensures forall u | u in multiset(Raised(t, x)) :: least + x <= u
  {
    forall u | u in multiset(Raised(t, x)) ensures least + x <= u {
      assert u in Raised(t, x);
      var j :| 0 <= j < |t| && u == Raised(t, x)[j];
      assert t[j] in multiset(t);
    }
  }

  ghost function Outside(t: seq<real>, x: nat, y: nat, d: nat): multiset<real>
    requires x + d <= y && y + d <= |t|
  {
    multiset(t[..x]) + multiset(t[x + d..y]) + multiset(t[y + d..])
  }

  /** A list as two disjoint stretches and the rest. */
  lemma TwoStretches(t: seq<real>, x: nat, y: nat, d: nat)
    requires x + d <= y && y + d <= |t|
    ensures multiset(t) == WindowBag(t, x, d) + WindowBag(t, y, d) + Outside(t, x, y, d)
  {
    var a, b, c := multiset(t[..x]), WindowBag(t, x, d), multiset(t[x + d..y]);
    var e, f := WindowBag(t, y, d), multiset(t[y + d..]);
    assert Outside(t, x, y, d) == a + c + f;
    hide *;
    ThreeParts(t, y, d);
    FrontParts(t, x, y, d);
    Regroup(a, b, c, e, f);
  }

  lemma FrontParts(t: seq<real>, x: nat, y: nat, d: nat)
    requires x + d <= y <= |t|
    ensures multiset(t[..y]) == multiset(t[..x]) + WindowBag(t, x, d) + multiset(t[x + d..y])
  {
    ThreeParts(t[..y], x, d);
    assert t[..y][..x] == t[..x];
    assert t[..y][x + d..] == t[x + d..y];
    assert Window(t[..y], x, d) == Window(t, x, d);
  }

  lemma ThreeParts(t: seq<real>, x: nat, d: nat)
    requires x + d <= |t|
    ensures multiset(t) == multiset(t[..x]) + WindowBag(t, x, d) + multiset(t[x + d..])
  {
    assert t == t[..x] + t[x..];
    assert t[x..] == Window(t, x, d) + t[x + d..];
  }

  lemma Regroup(a: multiset<real>, b: multiset<real>, c: multiset<real>, d: multiset<real>, e: multiset<real>)
    ensures ((a + b) + c) + d + e == b + d + (a + c + e)
  {
  }

  /** Two equally long windows share everything but one stretch each. */
  lemma WindowsShare(t: seq<real>, length: nat, i: nat, j: nat, d: nat)
    requires i < j && j + length <= |t| && d == if j - i < length then j - i else length
    ensures Lower(WindowBag(t, i, length), WindowBag(t, j, length))
       <==> Lower(WindowBag(t, i, d), WindowBag(t, j + length - d, d))
    ensures Lower(WindowBag(t, j, length), WindowBag(t, i, length))
       <==> Lower(WindowBag(t, j + length - d, d), WindowBag(t, i, d))
  {
    var shared := multiset(t[i + d..i + length]);
    var left, right := WindowBag(t, i, d), WindowBag(t, j + length - d, d);
    assert Window(t, i, length) == Window(t, i, d) + t[i + d..i + length];
    assert Window(t, j, length) == t[j..j + length - d] + Window(t, j + length - d, d);
    assert t[j..j + length - d] == t[i + d..i + length];
    assert WindowBag(t, i, length) == left + shared && WindowBag(t, j, length) == right + shared;
    LowerCancels(left, right, shared);
    LowerCancels(right, left, shared);
  }

  ghost function Before(base: seq<real>, start: nat, length: nat, rate: real, e: real): (r: seq<real>)
    ensures |r| == |base|
  {
    Shifted(base, start, length, rate + e)
  }

  ghost function After(base: seq<real>, start: nat, length: nat, rate: real, e: real, next: nat): (r: seq<real>)
    ensures |r| == |base|
  {
    Shifted(Shifted(base, start, length, e), next, length, rate)
  }

  /** x begins the d blocks left behind, y the d blocks newly served. */
  ghost predicate Swaps(t: seq<real>, start: nat, length: nat, next: nat, x: nat, y: nat, d: nat) {
    && 1 <= d && x + d <= |t| && y + d <= |t| && (x + d <= y || y + d <= x)
    && forall b ::
         && (x <= b < x + d <==> Serves(start, length, b) && !Serves(next, length, b))
         && (y <= b < y + d <==> Serves(next, length, b) && !Serves(start, length, b))
  }

  lemma LeftBehind(base: seq<real>, start: nat, length: nat, rate: real, e: real, next: nat, x: nat, y: nat, d: nat)
    requires Swaps(base, start, length, next, x, y, d)
    ensures Window(Before(base, start, length, rate, e), x, d) == Raised(Window(base, x, d), rate + e)
    ensures Window(After(base, start, length, rate, e, next), x, d) == Raised(Window(base, x, d), e)
  {
    forall k | x <= k < x + d
      ensures Before(base, start, length, rate, e)[k] == base[k] + (rate + e)
      ensures After(base, start, length, rate, e, next)[k] == base[k] + e
    {
      assert Serves(start, length, k) && !Serves(next, length, k);
    }
    hide Before, After, Swaps;
  }

  lemma NewlyServed(base: seq<real>, start: nat, length: nat, rate: real, e: real, next: nat, x: nat, y: nat, d: nat)
    requires Swaps(base, start, length, next, x, y, d)
    ensures Window(Before(base, start, length, rate, e), y, d) == Window(base, y, d)
    ensures Window(After(base, start, length, rate, e, next), y, d) == Raised(Window(base, y, d), rate)
  {
    forall k | y <= k < y + d
      ensures Before(base, start, length, rate, e)[k] == base[k]
      ensures After(base, start, length, rate, e, next)[k] == base[k] + rate
    {
      assert Serves(next, length, k) && !Serves(start, length, k);
    }
    hide Before, After, Swaps;
  }

  lemma Untouched(base: seq<real>, start: nat, length: nat, rate: real, e: real, next: nat, x: nat, y: nat, d: nat)
    requires Swaps(base, start, length, next, x, y, d)
    ensures forall b | 0 <= b < |base| && !(x <= b < x + d) && !(y <= b < y + d) ::
              Before(base, start, length, rate, e)[b] == After(base, start, length, rate, e, next)[b]
  {
    forall b | 0 <= b < |base| && !(x <= b < x + d) && !(y <= b < y + d)
      ensures Before(base, start, length, rate, e)[b] == After(base, start, length, rate, e, next)[b]
    {
      assert Serves(start, length, b) <==> Serves(next, length, b);
    }
  }

  lemma SwapRaises(base: seq<real>, start: nat, length: nat, rate: real, e: real, next: nat, x: nat, y: nat, d: nat)
    requires Swaps(base, start, length, next, x, y, d) && rate > 0.0 && e > 0.0
    requires !Lower(WindowBag(base, x, d), WindowBag(base, y, d))
    ensures Lower(multiset(Before(base, start, length, rate, e)),
                  multiset(After(base, start, length, rate, e, next)))
  {
    var before, after := Before(base, start, length, rate, e), After(base, start, length, rate, e, next);
    LeftBehind(base, start, length, rate, e, next, x, y, d);
    NewlyServed(base, start, length, rate, e, next, x, y, d);
    Untouched(base, start, length, rate, e, next, x, y, d);
    var a, b := Window(base, x, d), Window(base, y, d);
    hide Before, After, Lower, Window, Outside, Raised;
    StretchesRise(a, b, rate, e);
    var left, right := if x < y then x else y, if x < y then y else x;
    TwoStretches(before, left, right, d);
    TwoStretches(after, left, right, d);
    SameOutside(before, after, left, right, d);
    var out := Outside(before, left, right, d);
    assert multiset(before) == multiset(Raised(a, rate + e)) + multiset(b) + out;
    assert multiset(after) == multiset(Raised(a, e)) + multiset(Raised(b, rate)) + out;
    LowerCancels(multiset(Raised(a, rate + e)) + multiset(b), multiset(Raised(a, e)) + multiset(Raised(b, rate)), out);
  }

  /** Moving a server to a window that is not above its own raises the sorted throughputs. */
  lemma MoveRaises(base: seq<real>, start: nat, length: nat, rate: real, e: real, next: nat)
    requires start + length <= |base| && next + length <= |base| && start != next && length >= 1
    requires rate > 0.0 && e > 0.0
    requires !Lower(WindowBag(base, start, length), WindowBag(base, next, length))
    ensures Lower(multiset(Before(base, start, length, rate, e)),
                  multiset(After(base, start, length, rate, e, next)))
  {
    var gap := if start < next then next - start else start - next;
    var d := if gap < length then gap else length;
    hide Lower, WindowBag, Before, After;
    if start < next {
      WindowsShare(base, length, start, next, d);
      SwapRaises(base, start, length, rate, e, next, start, next + length - d, d);
    } else {
      WindowsShare(base, length, next, start, d);
      SwapRaises(base, start, length, rate, e, next, start + length - d, next, d);
    }
  }

  lemma SameOutside(t: seq<real>, u: seq<real>, x: nat, y: nat, d: nat)
    requires |t| == |u| && x + d <= y && y + d <= |t|
    requires forall b | 0 <= b < |t| && !(x <= b < x + d) && !(y <= b < y + d) :: t[b] == u[b]
    ensures Outside(t, x, y, d) == Outside(u, x, y, d)
  {
    assert t[..x] == u[..x] && t[x + d..y] == u[x + d..y] && t[y + d..] == u[y + d..];
  }

  ghost function Bag(w: Swarm, p: seq<nat>): multiset<real>
    requires w.Valid() && IsPlacement(w, p)
  {
    multiset(Loads(w, p))
  }

  /** A server that adds nothing wherever it is: without throughput or without blocks. */
  ghost predicate Idle(w: Swarm, i: nat)
    requires w.Valid() && i < |w.lengths|
  {
    w.rates[i] == 0.0 || w.lengths[i] <= 0
  }

  /** Every move of a server that is not idle strictly raises the ascending throughputs. */
  lemma MoveImproves(w: Swarm, p: seq<nat>, i: nat)
    requires w.Valid() && IsPlacement(w, p) && i < |p|
    ensures var q := Move(w, p, i, BestResponse(w, p, i));
            !Idle(w, i) && q != p ==>
              Lower(Bag(w, p), Bag(w, q)) && LexLess(SortedCopy(Loads(w, p)), SortedCopy(Loads(w, q)))
  {
    var next := BestResponse(w, p, i);
    if !Idle(w, i) && next != p[i] {
      BetterWindowImproves(w, p, i);
      hide Loads, Lower;
      LexLessIsLower(SortedCopy(Loads(w, p)), SortedCopy(Loads(w, Move(w, p, i, next))));
    }
  }

  lemma BetterWindowImproves(w: Swarm, p: seq<nat>, i: nat)
    requires w.Valid() && IsPlacement(w, p) && i < |p|
    requires !Idle(w, i) && BestResponse(w, p, i) != p[i]
    ensures Lower(Bag(w, p), Bag(w, Move(w, p, i, BestResponse(w, p, i))))
  {
    var base, next, rate := Base(w, p, i), BestResponse(w, p, i), w.rates[i];
    LoadsAfterMove(w, p, i, next);
    BestIsNotHigher(base, w.lengths[i], p[i]);
    assert Before(base, p[i], w.lengths[i], rate, rate * EPS) == Loads(w, p) by {
      forall b | 0 <= b < w.blocks ensures Before(base, p[i], w.lengths[i], rate, rate * EPS)[b] == Loads(w, p)[b] {
        assert rate * (1.0 + EPS) == rate + rate * EPS;
      }
    }
    MoveRaises(base, p[i], w.lengths[i], rate, rate * EPS, next);
  }

  /** An idle server changes nothing by moving. */
  lemma IdleMoveKeepsLoads(w: Swarm, p: seq<nat>, i: nat, start: nat)
    requires w.Valid() && IsPlacement(w, p) && i < |p| && IsPlace(w.blocks, w.lengths[i], start)
    requires Idle(w, i)
    ensures Loads(w, Move(w, p, i, start)) == Loads(w, p)
  {
    forall b | 0 <= b < w.blocks ensures Loads(w, Move(w, p, i, start))[b] == Loads(w, p)[b] {
      LoadAfterMove(w, p, i, start, |p|, b);
    }
  }

  // ----- the measure: placements ranked above the current one -----

  /** All lists of k starts below n + 1. */
  ghost function Candidates(n: nat, k: nat): (r: set<seq<nat>>)
    ensures forall p | p in r :: |p| == k
  {
    if k == 0 then {[]}
    else set p, x: nat | p in Candidates(n, k - 1) && 0 <= x <= n :: p + [x]
  }

  lemma {:induction false} CandidatesAreAll(n: nat, p: seq<nat>)
    requires forall i | 0 <= i < |p| :: p[i] <= n
    ensures p in Candidates(n, |p|)
  {
    if p != [] {
      var last := |p| - 1;
      CandidatesAreAll(n, p[..last]);
      assert p == p[..last] + [p[last]];
    }
  }

  /** The same placement with all reversed spans where they come to rest, so that starts are bounded. */
  ghost function Parked(w: Swarm, p: seq<nat>): (r: seq<nat>)
    requires w.Valid() && IsPlacement(w, p)
    ensures IsPlacement(w, r) && forall i | 0 <= i < |r| :: r[i] <= w.blocks
  {
    seq(|p|, i requires 0 <= i < |p| => if w.lengths[i] < 0 then ParkingPlace(w.blocks, w.lengths[i]) else p[i])
  }

  lemma {:induction false} ParkingKeepsLoad(w: Swarm, p: seq<nat>, k: nat, b: int)
    requires w.Valid() && IsPlacement(w, p) && k <= |p|
    ensures LoadOfFirst(w, Parked(w, p), k, b) == LoadOfFirst(w, p, k, b)
  {
    if k > 0 {
      ParkingKeepsLoad(w, p, k - 1, b);
    }
  }

  lemma ParkingKeepsBag(w: Swarm, p: seq<nat>)
    requires w.Valid() && IsPlacement(w, p)
    ensures Bag(w, Parked(w, p)) == Bag(w, p)
  {
    forall b | 0 <= b < w.blocks ensures Loads(w, Parked(w, p))[b] == Loads(w, p)[b] {
      ParkingKeepsLoad(w, p, |p|, b);
    }
    assert Loads(w, Parked(w, p)) == Loads(w, p);
  }

  ghost function RankedAbove(w: Swarm, bag: multiset<real>): set<seq<nat>>
    requires w.Valid()
  {
    set p | p in Candidates(w.blocks, |w.lengths|) && IsPlacement(w, p) && Lower(bag, Bag(w, p))
  }

  ghost function Rank(w: Swarm, p: seq<nat>): nat
    requires w.Valid() && IsPlacement(w, p)
  {
    |RankedAbove(w, Bag(w, p))|
  }

  lemma RankDrops(w: Swarm, p: seq<nat>, q: seq<nat>)
    requires w.Valid() && IsPlacement(w, p) && IsPlacement(w, q)
    requires Lower(Bag(w, p), Bag(w, q))
    ensures Rank(w, q) < Rank(w, p)
  {
    hide Bag, Lower, Parked;
    var above, fewer := RankedAbove(w, Bag(w, p)), RankedAbove(w, Bag(w, q));
    var parked := Parked(w, q);
    ParkingKeepsBag(w, q);
    CandidatesAreAll(w.blocks, parked);
    LowerIsIrreflexive(Bag(w, q));
    assert parked in above && parked !in fewer;
    forall r | r in fewer ensures r in above {
      LowerIsTransitive(Bag(w, p), Bag(w, q), Bag(w, r));
    }
    ProperSubsetIsSmaller(fewer, above);
  }

  lemma ProperSubsetIsSmaller(x: set<seq<nat>>, y: set<seq<nat>>)
    requires x < y
    ensures |x| < |y|
  {
    assert y == x + (y - x);
    var e :| e in y - x;
    assert |y| == |x| + |y - x|;
  }

  // ----- the bottleneck -----

  /** The least throughput over all blocks. */
  function Least(t: seq<real>): (r: real)
    requires t != []
    ensures r in t && forall b | 0 <= b < |t| :: r <= t[b]
  {
    if |t| == 1 then t[0]
    else
      var r := Least(t[..|t| - 1]);
      if t[|t| - 1] < r then t[|t| - 1] else r
  }

  lemma BottleneckRises(t: seq<real>, u: seq<real>)
    requires t != [] && u != [] && Lower(multiset(t), multiset(u))
    ensures Least(t) <= Least(u)
  {
    LowerIsAsymmetric(multiset(t), multiset(u));
    assert forall v | v in multiset(t) :: v in t && Least(t) <= v;
    NotLowerKeepsMinimum(multiset(u), multiset(t), Least(t));
    assert Least(u) in multiset(u);
  }

  // ----- rest points -----

  ghost predicate Settled(w: Swarm, p: seq<nat>, i: nat)
    requires w.Valid() && IsPlacement(w, p) && i < |p|
  {
    BestResponse(w, p, i) == p[i]
  }

  ghost predicate AllSettled(w: Swarm, p: seq<nat>)
    requires w.Valid() && IsPlacement(w, p)
  {
    forall i | 0 <= i < |p| :: Settled(w, p, i)
  }

  /** A start is the chosen one exactly if no other start is better. */
  lemma BestIsUnbeaten(t: seq<real>, length: int, i: nat)
    requires length <= |t| && i + length <= |t|
    ensures BestStart(t, length) == i <==> forall j: nat | j + length <= |t| :: !Better(t, length, j, i)
  {
    hide Better;
    var r := BestStart(t, length);
    if r == i {
      forall j: nat | j + length <= |t| ensures !Better(t, length, j, i) {
        if j != r {
          BestBeatsOthers(t, length, |t| - length, j);
          BetterIsAsymmetric(t, length, r, j);
        } else if Better(t, length, j, i) {
          BetterIsAsymmetric(t, length, j, i);
        }
      }
    } else {
      BestBeatsOthers(t, length, |t| - length, i);
    }
  }

  /**
   At rest no server with blocks has a better window under the rule, and those without blocks stand at their
   parking place; and only then.
   */
  lemma RestMeansNoBetterWindow(w: Swarm, p: seq<nat>)
    requires w.Valid() && IsPlacement(w, p)
    ensures AllSettled(w, p) <==>
            && (forall i: nat, j: nat | i < |p| && w.lengths[i] > 0 && j + w.lengths[i] <= w.blocks ::
                  !Better(Base(w, p, i), w.lengths[i], j, p[i]))
            && forall i: nat | i < |p| && w.lengths[i] <= 0 :: p[i] == ParkingPlace(w.blocks, w.lengths[i])
  {
    hide Base, Better, BestStart, ParkingPlace;
    forall i: nat | i < |p|
      ensures Settled(w, p, i) <==>
              if w.lengths[i] > 0 then
                forall j: nat | j + w.lengths[i] <= w.blocks :: !Better(Base(w, p, i), w.lengths[i], j, p[i])
              else p[i] == ParkingPlace(w.blocks, w.lengths[i])
    {
      if w.lengths[i] > 0 {
        BestIsUnbeaten(Base(w, p, i), w.lengths[i], p[i]);
      } else {
        ParkingPlaceIsBest(Base(w, p, i), w.lengths[i]);
      }
    }
  }

  /** A server whose start and whose swarm's loads did not change stays settled. */
  lemma SettledDependsOnLoads(w: Swarm, p: seq<nat>, q: seq<nat>, i: nat)
    requires w.Valid() && IsPlacement(w, p) && IsPlacement(w, q) && i < |p|
    requires Loads(w, p) == Loads(w, q) && p[i] == q[i] && Settled(w, p, i)
    ensures Settled(w, q, i)
  {
  }

  lemma IdleBaseIsLoads(w: Swarm, p: seq<nat>, i: nat)
    requires w.Valid() && IsPlacement(w, p) && i < |p| && Idle(w, i)
    ensures Base(w, p, i) == Loads(w, p)
  {
  }

  /** An idle server settles at once. */
  lemma IdleServerSettles(w: Swarm, p: seq<nat>, i: nat)
    requires w.Valid() && IsPlacement(w, p) && i < |p| && Idle(w, i)
    ensures Settled(w, Move(w, p, i, BestResponse(w, p, i)), i)
  {
    IdleMoveKeepsLoads(w, p, i, BestResponse(w, p, i));
    IdleBaseIsLoads(w, p, i);
    IdleBaseIsLoads(w, Move(w, p, i, BestResponse(w, p, i)), i);
    hide Loads, Base, BestStart, Idle;
  }

  // ----- a pass over all servers -----

  /** Since placement p0 the sorted throughputs rose, or the loads are unchanged and every server visited is settled. */
  ghost predicate Progress(w: Swarm, p0: seq<nat>, p: seq<nat>, visited: seq<nat>)
    requires w.Valid() && IsPlacement(w, p0) && IsPlacement(w, p)
  {
    || Lower(Bag(w, p0), Bag(w, p))
    || (Loads(w, p) == Loads(w, p0) && forall i | i in visited && i < |p| :: Settled(w, p, i))
  }

  lemma VisitKeepsProgress(w: Swarm, p0: seq<nat>, p: seq<nat>, visited: seq<nat>, i: nat)
    requires w.Valid() && IsPlacement(w, p0) && IsPlacement(w, p) && i < |p|
    requires Progress(w, p0, p, visited)
    ensures Progress(w, p0, Move(w, p, i, BestResponse(w, p, i)), visited + [i])
  {
    if Idle(w, i) {
      IdleVisitKeepsProgress(w, p0, p, visited, i);
    } else if BestResponse(w, p, i) != p[i] {
      MoveImproves(w, p, i);
      hide BestResponse, Idle, Settled, Loads, LexLess, SortedCopy, Lower;
      if Lower(Bag(w, p0), Bag(w, p)) {
        LowerIsTransitive(Bag(w, p0), Bag(w, p), Bag(w, Move(w, p, i, BestResponse(w, p, i))));
      }
    } else {
      hide BestResponse, Idle, Loads, Lower;
      assert Move(w, p, i, p[i]) == p;
    }
  }

  lemma IdleVisitKeepsProgress(w: Swarm, p0: seq<nat>, p: seq<nat>, visited: seq<nat>, i: nat)
    requires w.Valid() && IsPlacement(w, p0) && IsPlacement(w, p) && i < |p| && Idle(w, i)
    requires Progress(w, p0, p, visited)
    ensures Progress(w, p0, Move(w, p, i, BestResponse(w, p, i)), visited + [i])
  {
    var q := Move(w, p, i, BestResponse(w, p, i));
    IdleMoveKeepsLoads(w, p, i, BestResponse(w, p, i));
    IdleServerSettles(w, p, i);
    hide BestResponse, Idle, Settled, Loads, Lower;
    forall j | j in visited && j < |p| && Settled(w, p, j) ensures Settled(w, q, j) {
      if j != i {
        SettledDependsOnLoads(w, p, q, j);
      }
    }
  }

  /** The bottleneck of the swarm never falls. */
  lemma ProgressKeepsBottleneck(w: Swarm, p0: seq<nat>, p: seq<nat>, visited: seq<nat>)
    requires w.Valid() && IsPlacement(w, p0) && IsPlacement(w, p) && w.blocks >= 1
    requires Progress(w, p0, p, visited)
    ensures Least(Loads(w, p0)) <= Least(Loads(w, p))
  {
    if Lower(Bag(w, p0), Bag(w, p)) {
      BottleneckRises(Loads(w, p0), Loads(w, p));
    }
  }

  lemma ProgressChains(w: Swarm, p0: seq<nat>, p: seq<nat>, q: seq<nat>, visited: seq<nat>)
    requires w.Valid() && IsPlacement(w, p0) && IsPlacement(w, p) && IsPlacement(w, q)
    requires Progress(w, p0, p, []) && Progress(w, p, q, visited)
    ensures Progress(w, p0, q, [])
  {
    if Lower(Bag(w, p0), Bag(w, p)) && Lower(Bag(w, p), Bag(w, q)) {
      LowerIsTransitive(Bag(w, p0), Bag(w, p), Bag(w, q));
    }
  }

  /** Past the disjointness guard the other servers alone cover every block, wherever this one goes. */
  lemma GuardKeepsSwarmConnected(w: Swarm, p: seq<nat>, i: nat, start: nat)
    requires w.Valid() && IsPlacement(w, p) && i < |p| && IsPlace(w.blocks, w.lengths[i], start)
    requires w.blocks >= 1 && Least(Base(w, p, i)) > 0.0
    ensures Least(Loads(w, Move(w, p, i, start))) > 0.0
  {
    var q := Move(w, p, i, start);
    forall b | 0 <= b < w.blocks ensures Loads(w, q)[b] > 0.0 {
      LoadAfterMove(w, p, i, start, |p|, b);
      assert Base(w, p, i)[b] > 0.0;
      assert w.rates[i] * (1.0 + EPS) == w.rates[i] + w.rates[i] * EPS;
    }
  }
}
