/** Heights for panels that do not scroll: as asked while they fit, else the tallest give up a
    row at a time, none below a least height. */
module PanelHeights {
  import opened Basics

  function Sum(s: seq<nat>): nat {
    if s == [] then 0 else s[0] + Sum(s[1..])
  }

  /** The floor no panel is pushed through: `least`, or what it asked for if that is less. */
  function Floors(wanted: seq<nat>, least: nat): (f: seq<nat>)
    ensures |f| == |wanted| && forall i :: 0 <= i < |f| ==> f[i] == Min(wanted[i], least)
  {
    if wanted == [] then [] else [Min(wanted[0], least)] + Floors(wanted[1..], least)
  }

  lemma {:induction false} SumUpdate(s: seq<nat>, i: nat, v: nat)
    requires i < |s|
    ensures Sum(s[i := v]) == Sum(s) - s[i] + v
  {
    if i == 0 {
      assert s[i := v][1..] == s[1..];
    } else {
      SumUpdate(s[1..], i - 1, v);
      assert s[i := v][1..] == s[1..][i - 1 := v];
    }
  }

  lemma {:induction false} SumMonotone(a: seq<nat>, b: seq<nat>)
    requires |a| == |b| && forall i :: 0 <= i < |a| ==> a[i] <= b[i]
    ensures Sum(a) <= Sum(b)
    ensures Sum(a) == Sum(b) ==> a == b
  {
    if a != [] {
      SumMonotone(a[1..], b[1..]);
      assert a == [a[0]] + a[1..] && b == [b[0]] + b[1..];
    }
  }

  // ── What the heights must be ─────────────────────────────────────────────

  ghost predicate Bounded(h: seq<nat>, wanted: seq<nat>, least: nat) {
    |h| == |wanted| && forall i :: 0 <= i < |h| ==> Min(wanted[i], least) <= h[i] <= wanted[i]
  }

  /** A panel that gave up a row is as tall as any later one, and at most one row shorter than
      any earlier one. */
  ghost predicate Level(h: seq<nat>, wanted: seq<nat>)
    requires |h| == |wanted|
  {
    forall i, j :: 0 <= i < |h| && 0 <= j < |h| && h[i] < wanted[i] ==>
      h[j] <= h[i] + if j < i then 1 else 0
  }

  function Target(wanted: seq<nat>, room: nat, least: nat): nat {
    if Sum(wanted) <= room then Sum(wanted)
    else if Sum(Floors(wanted, least)) <= room then room
    else Sum(Floors(wanted, least))
  }

  ghost predicate Fitted(h: seq<nat>, wanted: seq<nat>, room: nat, least: nat) {
    Bounded(h, wanted, least) && Level(h, wanted) && Sum(h) == Target(wanted, room, least)
  }

  lemma Differ(h: seq<nat>, k: seq<nat>) returns (i: nat)
    requires |h| == |k| && Sum(h) == Sum(k) && h != k
    ensures i < |h| && h[i] < k[i]
  {
    if forall n :: 0 <= n < |h| ==> k[n] <= h[n] {
      SumMonotone(k, h);
      assert false;
    }
    i :| 0 <= i < |h| && h[i] < k[i];
  }

  /** There is one way to fit the panels: bounds, total and levelness leave no choice. */
  lemma FittedIsUnique(h: seq<nat>, k: seq<nat>, wanted: seq<nat>, room: nat, least: nat)
    requires Fitted(h, wanted, room, least) && Fitted(k, wanted, room, least)
    ensures h == k
  {
    if h != k {
      var i := Differ(h, k);
      var j := Differ(k, h);
    }
  }

  /** Panels that fit keep what they asked for. */
  lemma RoomEnoughIsAsAsked(h: seq<nat>, wanted: seq<nat>, room: nat, least: nat)
    requires Fitted(h, wanted, room, least) && Sum(wanted) <= room
    ensures h == wanted
  {
    SumMonotone(h, wanted);
  }

  /** Where the floors leave room, the panels fill it to the row. */
  lemma RoomIsFilled(h: seq<nat>, wanted: seq<nat>, room: nat, least: nat)
    requires Fitted(h, wanted, room, least)
    ensures Sum(h) <= room <==> Sum(Floors(wanted, least)) <= room
    ensures Sum(h) < room ==> h == wanted
  {
    SumMonotone(Floors(wanted, least), wanted);
    if Sum(wanted) <= room { SumMonotone(h, wanted); }
  }

  // ── The loop ─────────────────────────────────────────────────────────────

  /** The last of the tallest panels above `least`, if any is. */
  method Tallest(heights: array<nat>, least: nat) returns (found: bool, at: nat)
    ensures found ==> && at < heights.Length && heights[at] > least
                      && (forall j :: 0 <= j < heights.Length ==> heights[j] <= heights[at])
                      && (forall j :: at < j < heights.Length ==> heights[j] < heights[at])
    ensures !found ==> forall j :: 0 <= j < heights.Length ==> heights[j] <= least
  {
    found, at := false, 0;
    for i := 0 to heights.Length
      invariant found ==> && at < i && heights[at] > least
                          && (forall j :: 0 <= j < i ==> heights[j] <= heights[at])
                          && (forall j :: at < j < i ==> heights[j] < heights[at])
      invariant !found ==> forall j :: 0 <= j < i ==> heights[j] <= least
    {
      if heights[i] > least && (!found || heights[i] >= heights[at]) { found, at := true, i; }
    }
  }

  lemma GivingARowKeepsLevel(h: seq<nat>, wanted: seq<nat>, least: nat, at: nat)
    requires Bounded(h, wanted, least) && Level(h, wanted) && at < |h| && h[at] > least
    requires forall j :: 0 <= j < |h| ==> h[j] <= h[at]
    requires forall j :: at < j < |h| ==> h[j] < h[at]
    ensures Bounded(h[at := h[at] - 1], wanted, least) && Level(h[at := h[at] - 1], wanted)
    ensures Sum(h[at := h[at] - 1]) == Sum(h) - 1
  {
    SumUpdate(h, at, h[at] - 1);
  }

  lemma AllAtTheirFloor(h: seq<nat>, wanted: seq<nat>, least: nat)
    requires Bounded(h, wanted, least) && forall j :: 0 <= j < |h| ==> h[j] <= least
    ensures h == Floors(wanted, least)
  {
  }

  /** No panel is left above `least`: the floors are as far as they go. */
  lemma StoppedAtTheFloors(h: seq<nat>, wanted: seq<nat>, room: nat, least: nat)
    requires Bounded(h, wanted, least) && Level(h, wanted) && Sum(h) > room
    requires forall j :: 0 <= j < |h| ==> h[j] <= least
    ensures Fitted(h, wanted, room, least)
  {
    AllAtTheirFloor(h, wanted, least);
    SumMonotone(h, wanted);
  }

  lemma StoppedAtTheRoom(h: seq<nat>, wanted: seq<nat>, room: nat, least: nat)
    requires Bounded(h, wanted, least) && Level(h, wanted)
    requires if Sum(wanted) <= room then h == wanted else Sum(h) == room
    ensures Fitted(h, wanted, room, least)
  {
    SumMonotone(Floors(wanted, least), h);
  }

  method FitHeights(wanted: seq<nat>, room: nat, least: nat) returns (heights: array<nat>)
    ensures fresh(heights) && Fitted(heights[..], wanted, room, least)
  {
    heights := new nat[|wanted|](i requires 0 <= i < |wanted| => wanted[i]);
    assert heights[..] == wanted;
    var total := Total(heights);
    var over: nat := if total > room then total - room else 0;
    ghost var h := heights[..];
    while over > 0
      invariant h == heights[..] && |h| == |wanted|
      invariant Bounded(h, wanted, least) && Level(h, wanted)
      invariant if Sum(wanted) <= room then h == wanted && over == 0 else Sum(h) == room + over
    {
      var found, tallest := Tallest(heights, least);
      assert forall j :: 0 <= j < |h| ==> h[j] == heights[j];
      if !found {
        StoppedAtTheFloors(h, wanted, room, least);
        return;
      }
      GivingARowKeepsLevel(h, wanted, least, tallest);
      heights[tallest] := heights[tallest] - 1;
      h := h[tallest := h[tallest] - 1];
      over := over - 1;
    }
    StoppedAtTheRoom(h, wanted, room, least);
  }

  method Total(heights: array<nat>) returns (total: nat)
    ensures total == Sum(heights[..])
  {
    total := 0;
    var i := heights.Length;
    while i > 0
      invariant 0 <= i <= heights.Length && total == Sum(heights[i..])
    {
      i := i - 1;
      assert heights[i..] == [heights[i]] + heights[i + 1..];
      total := heights[i] + total;
    }
    assert heights[0..] == heights[..];
  }
}
