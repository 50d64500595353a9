/** Token buckets as both limiters use them, and the sliding-window meaning of their verdicts. */
module TokenBuckets {

  datatype Rule = Rule(capacity: real, refill: real)

  datatype Bucket = Bucket(tokens: real, lastRefillAt: real)

  function Least(x: real, y: real): real {
    if x <= y then x else y
  }

  function Gained(rule: Rule, seconds: real): real {
    seconds * rule.refill
  }

  /** Tokens at hand at `now`. */
  function Level(rule: Rule, b: Bucket, now: real): real {
    Least(b.tokens + Gained(rule, now - b.lastRefillAt), rule.capacity)
  }

  /** Refill, then take one token if there is one. */
  function Attempt(rule: Rule, b: Bucket, now: real): (Bucket, bool) {
    var level := Level(rule, b, now);
    if level >= 1.0 then (Bucket(level - 1.0, now), true) else (Bucket(level, now), false)
  }

  // ---------------------------------------------------------------------
  // The reference: visits and windows
  // ---------------------------------------------------------------------

  datatype Visit = Visit(at: real, admitted: bool)

  ghost predicate InOrder(h: seq<Visit>) {
    forall i, j :: 0 <= i <= j < |h| ==> h[i].at <= h[j].at
  }

  /** No visit of `h` is later than `now`. */
  ghost predicate NotAfter(h: seq<Visit>, now: real) {
    forall i :: 0 <= i < |h| ==> h[i].at <= now
  }

  function Admissions(h: seq<Visit>): nat {
    if h == [] then 0 else Admissions(h[..|h| - 1]) + if h[|h| - 1].admitted then 1 else 0
  }

  /** The admissions of `h` are counted one by one. */
  lemma {:induction false} AdmissionsCounted(h: seq<Visit>)
    ensures Admissions(h) == |set i | 0 <= i < |h| && h[i].admitted|
  {
    if h != [] {
      var n := |h| - 1;
      AdmissionsCounted(h[..n]);
      var before := set i | 0 <= i < n && h[..n][i].admitted;
      assert (set i | 0 <= i < |h| && h[i].admitted) == if h[n].admitted then before + {n} else before;
    }
  }

  /** What the window from visit `j` to `now` still allows. */
  function Room(rule: Rule, h: seq<Visit>, j: nat, now: real): real
    requires j < |h|
  {
    rule.capacity + Gained(rule, now - h[j].at) - Admissions(h[j..]) as real
  }

  /** One more admission at `now` keeps every window ending there within its allowance. */
  ghost predicate Fits(rule: Rule, h: seq<Visit>, now: real) {
    && rule.capacity >= 1.0
    && forall j :: 0 <= j < |h| ==> Room(rule, h, j, now) >= 1.0
  }

  lemma RoomMeans(rule: Rule, h: seq<Visit>, j: nat, now: real)
    requires j < |h|
    ensures Room(rule, h, j, now) == rule.capacity + (now - h[j].at) * rule.refill - Admissions(h[j..]) as real
  {
    hide Admissions;
  }

  /** In plain arithmetic: from every earlier visit on, the capacity and what refilled since leave
      room for one more. */
  lemma FitsMeans(rule: Rule, h: seq<Visit>, now: real)
    ensures Fits(rule, h, now) <==>
              && rule.capacity >= 1.0
              && forall j :: 0 <= j < |h| ==>
                   rule.capacity + (now - h[j].at) * rule.refill - Admissions(h[j..]) as real >= 1.0
  {
    hide Admissions, Room;
    if Fits(rule, h, now) {
      forall j | 0 <= j < |h|
        ensures rule.capacity + (now - h[j].at) * rule.refill - Admissions(h[j..]) as real >= 1.0
      {
        RoomMeans(rule, h, j, now);
      }
    } else if rule.capacity >= 1.0 {
      var j :| 0 <= j < |h| && !(Room(rule, h, j, now) >= 1.0);
      RoomMeans(rule, h, j, now);
      assert !(rule.capacity + (now - h[j].at) * rule.refill - Admissions(h[j..]) as real >= 1.0);
    }
  }

  /** Admissions with a time in [from, to]. */
  function AdmissionsIn(h: seq<Visit>, from: real, to: real): nat {
    if h == [] then 0
    else
      var last := h[|h| - 1];
      AdmissionsIn(h[..|h| - 1], from, to) + if last.admitted && from <= last.at <= to then 1 else 0
  }

  // ---------------------------------------------------------------------
  // The bucket keeps the least room
  // ---------------------------------------------------------------------

  /** The tokens left are the least room over the windows that end at the last visit. */
  ghost predicate KeepsLeast(rule: Rule, h: seq<Visit>, b: Bucket) {
    && b.tokens <= rule.capacity
    && if h == [] then b.tokens == rule.capacity
       else
         && b.lastRefillAt == h[|h| - 1].at
         && (forall j :: 0 <= j < |h| ==> b.tokens <= Room(rule, h, j, b.lastRefillAt))
         && exists j :: 0 <= j < |h| && b.tokens == Room(rule, h, j, b.lastRefillAt)
  }

  lemma GainedAdds(rule: Rule, s: real, t: real)
    ensures Gained(rule, s + t) == Gained(rule, s) + Gained(rule, t)
  {
  }

  lemma GainedGrows(rule: Rule, s: real, t: real)
    requires rule.refill >= 0.0 && s <= t
    ensures Gained(rule, s) <= Gained(rule, t)
  {
    var d := t - s;
    assert Gained(rule, d) >= 0.0;
    assert t == s + d;
    hide Gained;
    GainedAdds(rule, s, d);
  }

  lemma RoomLater(rule: Rule, h: seq<Visit>, j: nat, now: real, later: real)
    requires j < |h|
    ensures Room(rule, h, j, later) == Room(rule, h, j, now) + Gained(rule, later - now)
  {
    GainedAdds(rule, now - h[j].at, later - now);
    assert later - h[j].at == (now - h[j].at) + (later - now);
  }

  lemma RoomAfterVisit(rule: Rule, h: seq<Visit>, j: nat, v: Visit)
    requires j <= |h|
    ensures Room(rule, h + [v], j, v.at)
         == (if j == |h| then rule.capacity else Room(rule, h, j, v.at)) - if v.admitted then 1.0 else 0.0
  {
    assert (h + [v])[j..] == h[j..] + [v];
    assert (h[j..] + [v])[..|h[j..] + [v]| - 1] == h[j..];
    var before := Admissions(h[j..]);
    assert Admissions((h + [v])[j..]) == before + if v.admitted then 1 else 0;
    assert (before + 1) as real == before as real + 1.0;
    hide Admissions;
    if j == |h| {
      assert Gained(rule, v.at - v.at) == 0.0;
      assert h[j..] == [];
    }
    hide Gained;
  }

  /** The level is the least of the capacity and every window's room. */
  lemma LevelIsLeastRoom(rule: Rule, h: seq<Visit>, b: Bucket, now: real)
    requires rule.refill >= 0.0 && KeepsLeast(rule, h, b) && (h == [] ==> b.lastRefillAt <= now)
    ensures Level(rule, b, now) <= rule.capacity
    ensures forall j :: 0 <= j < |h| ==> Level(rule, b, now) <= Room(rule, h, j, now)
    ensures Level(rule, b, now) == rule.capacity
         || exists j :: 0 <= j < |h| && Level(rule, b, now) == Room(rule, h, j, now)
  {
    hide Gained, Room;
    forall j | 0 <= j < |h| ensures Level(rule, b, now) <= Room(rule, h, j, now) {
      RoomLater(rule, h, j, b.lastRefillAt, now);
    }
    if h == [] {
      GainedGrows(rule, 0.0, now - b.lastRefillAt);
      GainedAdds(rule, 0.0, 0.0);
    } else {
      var j :| 0 <= j < |h| && b.tokens == Room(rule, h, j, b.lastRefillAt);
      RoomLater(rule, h, j, b.lastRefillAt, now);
    }
  }

  /** An attempt is admitted exactly when admitting it keeps every window within its allowance;
      and the bucket goes on keeping the least room. */
  lemma AttemptFits(rule: Rule, h: seq<Visit>, b: Bucket, now: real)
    requires rule.refill >= 0.0 && KeepsLeast(rule, h, b) && (h == [] ==> b.lastRefillAt <= now)
    ensures Attempt(rule, b, now).1 <==> Fits(rule, h, now)
    ensures KeepsLeast(rule, h + [Visit(now, Attempt(rule, b, now).1)], Attempt(rule, b, now).0)
  {
    hide Gained, Room, Level;
    LevelIsLeastRoom(rule, h, b, now);
    var (after, admitted) := Attempt(rule, b, now);
    var v := Visit(now, admitted);
    forall j | 0 <= j <= |h| ensures after.tokens <= Room(rule, h + [v], j, now) {
      RoomAfterVisit(rule, h, j, v);
    }
    if Level(rule, b, now) == rule.capacity {
      RoomAfterVisit(rule, h, |h|, v);
      assert after.tokens == Room(rule, h + [v], |h|, now);
    } else {
      var j :| 0 <= j < |h| && Level(rule, b, now) == Room(rule, h, j, now);
      RoomAfterVisit(rule, h, j, v);
      assert after.tokens == Room(rule, h + [v], j, now);
    }
  }

  // ---------------------------------------------------------------------
  // Every window
  // ---------------------------------------------------------------------

  /** The visits admitted are exactly those that fitted when they came. */
  ghost predicate FitsExactly(rule: Rule, h: seq<Visit>) {
    forall i :: 0 <= i < |h| ==> (h[i].admitted <==> Fits(rule, h[..i], h[i].at))
  }

  lemma FitsExactlyOn(rule: Rule, h: seq<Visit>, v: Visit)
    requires FitsExactly(rule, h) && (v.admitted <==> Fits(rule, h, v.at))
    ensures FitsExactly(rule, h + [v])
  {
    hide Fits;
    var g := h + [v];
    forall i | 0 <= i < |g| ensures g[i].admitted <==> Fits(rule, g[..i], g[i].at) {
      assert g[..i] == if i < |h| then h[..i] else h;
    }
  }

  lemma FewerFitExactly(rule: Rule, h: seq<Visit>)
    requires FitsExactly(rule, h) && h != []
    ensures FitsExactly(rule, h[..|h| - 1])
    ensures h[|h| - 1].admitted <==> Fits(rule, h[..|h| - 1], h[|h| - 1].at)
  {
    hide Fits;
    var before := h[..|h| - 1];
    forall i | 0 <= i < |before| ensures before[i].admitted <==> Fits(rule, before[..i], before[i].at) {
      assert before[..i] == h[..i];
    }
  }

  lemma {:induction false} AdmissionsInTail(h: seq<Visit>, j: nat, from: real, to: real)
    requires j <= |h| && forall i :: 0 <= i < j ==> h[i].at < from
    ensures AdmissionsIn(h, from, to) <= Admissions(h[j..])
  {
    if j < |h| {
      AdmissionsInTail(h[..|h| - 1], j, from, to);
      assert h[j..][..|h[j..]| - 1] == h[..|h| - 1][j..];
    } else if h != [] {
      AdmissionsInTail(h[..|h| - 1], |h| - 1, from, to);
    }
  }

  lemma {:induction false} FirstFrom(h: seq<Visit>, from: real) returns (j: nat)
    requires InOrder(h) && h != [] && from <= h[|h| - 1].at
    ensures j < |h| && from <= h[j].at && forall i :: 0 <= i < j ==> h[i].at < from
  {
    j := |h| - 1;
    while j > 0 && from <= h[j - 1].at
      invariant j < |h| && from <= h[j].at
    {
      j := j - 1;
    }
  }

  /** No window [from, to] ever holds more admissions than the capacity and what refilled
      during it. */
  lemma {:induction false} WindowBound(rule: Rule, h: seq<Visit>, from: real, to: real)
    requires rule.capacity >= 0.0 && rule.refill >= 0.0 && InOrder(h) && FitsExactly(rule, h) && from <= to
    ensures AdmissionsIn(h, from, to) as real <= rule.capacity + Gained(rule, to - from)
  {
    hide Gained, Fits, FitsExactly, Admissions;
    GainedGrows(rule, 0.0, to - from);
    GainedAdds(rule, 0.0, 0.0);
    if h != [] {
      var n := |h| - 1;
      var before := h[..n];
      FewerFitExactly(rule, h);
      WindowBound(rule, before, from, to);
      if h[n].admitted && from <= h[n].at <= to {
        var j := FirstFrom(h, from);
        AdmissionsInTail(h, j, from, to);
        LastWindow(rule, h, j);
        GainedGrows(rule, h[n].at - h[j].at, to - from);
      }
    }
  }

  /** No window is ever overdrawn. */
  lemma {:induction false} RoomIsNotNegative(rule: Rule, h: seq<Visit>, j: nat, now: real)
    requires rule.refill >= 0.0 && rule.capacity >= 0.0 && InOrder(h) && FitsExactly(rule, h)
    requires j < |h| && h[|h| - 1].at <= now
    ensures Room(rule, h, j, now) >= 0.0
  {
    hide Gained, FitsExactly, Room, Admissions;
    var n := |h| - 1;
    var before := h[..n];
    assert before + [h[n]] == h;
    FewerFitExactly(rule, h);
    if j < n {
      RoomIsNotNegative(rule, before, j, h[n].at);
    }
    RoomAfterVisit(rule, before, j, h[n]);
    GainedGrows(rule, 0.0, now - h[n].at);
    GainedAdds(rule, 0.0, 0.0);
    RoomLater(rule, h, j, h[n].at, now);
  }

  /** A second without visits refills enough for one. */
  lemma IdleFits(rule: Rule, h: seq<Visit>, now: real)
    requires rule.refill >= 1.0 && rule.capacity >= 1.0 && InOrder(h) && FitsExactly(rule, h)
    requires NotAfter(h, now - 1.0)
    ensures Fits(rule, h, now)
  {
    hide FitsExactly, Room, Admissions;
    forall j | 0 <= j < |h| ensures Room(rule, h, j, now) >= 1.0 {
      RoomIsNotNegative(rule, h, j, now - 1.0);
      RoomLater(rule, h, j, now - 1.0, now);
      assert now - (now - 1.0) == 1.0;
    }
  }

  /** The window from visit `j` to an admitted last visit. */
  lemma LastWindow(rule: Rule, h: seq<Visit>, j: nat)
    requires j < |h| && h[|h| - 1].admitted && Fits(rule, h[..|h| - 1], h[|h| - 1].at)
    ensures Admissions(h[j..]) as real <= rule.capacity + Gained(rule, h[|h| - 1].at - h[j].at)
  {
    hide Gained;
    var n := |h| - 1;
    var before := h[..n];
    assert before + [h[n]] == h;
    RoomAfterVisit(rule, before, j, h[n]);
    assert j < n ==> Room(rule, before, j, h[n].at) >= 1.0;
  }
}
