/**
  What NetPingDriver.Read promises about the dictionary it returns: exactly
  which keys appear, which point's write a value comes from, and, when the
  points' keys do not collide, the exact entries of every point.
 */
module ReadProperties {
  import opened Wrappers
  import opened NetPingDriver

  /** Whether the point writes key `k`, read off the source's branches. */
  ghost predicate PointWrites(point: Point, outcome: PingOutcome, retrieveStatus: bool, k: string) {
    && !IsNullOrEmpty(point.address)
    && ((k == point.name && outcome.Replied? && outcome.status == Success)
        || (k == StatusKey(point.name) && (outcome.Threw? || retrieveStatus)))
  }

  /** The status text written for a point: the innermost exception message, or the status's name. */
  function StatusValue(outcome: PingOutcome): Value {
    match outcome
    case Threw(message) => Text(message)
    case Replied(status, _) => Text(StatusName(status))
  }

  lemma StatusKeyInjective(a: string, b: string)
    ensures StatusKey(a) == StatusKey(b) <==> a == b
  {
    if StatusKey(a) == StatusKey(b) {
      assert a == StatusKey(a)[..|a|];
      assert b == StatusKey(b)[..|b|];
    }
  }

  /** One point's entries: the latency only on Success, the status on demand or on an exception. */
  lemma PointReadingsExactly(point: Point, outcome: PingOutcome, retrieveStatus: bool, k: string)
    ensures k in PointReadings(point, outcome, retrieveStatus) <==> PointWrites(point, outcome, retrieveStatus, k)
    ensures k in PointReadings(point, outcome, retrieveStatus) && k == point.name ==>
      PointReadings(point, outcome, retrieveStatus)[k] == Number(outcome.roundtripTime)
    ensures k in PointReadings(point, outcome, retrieveStatus) && k == StatusKey(point.name) ==>
      PointReadings(point, outcome, retrieveStatus)[k] == StatusValue(outcome)
  {
  }

  /** A key is in the dictionary exactly when some point wrote it. */
  lemma {:induction false} ReadingsKeys(points: seq<Point>, outcomes: seq<PingOutcome>, retrieveStatus: bool, k: string)
    requires |outcomes| == |points|
    ensures k in Readings(points, outcomes, retrieveStatus) <==>
      exists i :: 0 <= i < |points| && k in PointReadings(points[i], outcomes[i], retrieveStatus)
    decreases |points|
  {
    if |points| > 0 {
      var n := |points| - 1;
      ReadingsKeys(points[..n], outcomes[..n], retrieveStatus, k);
      if k in Readings(points, outcomes, retrieveStatus) {
        if k !in PointReadings(points[n], outcomes[n], retrieveStatus) {
          var i :| 0 <= i < n && k in PointReadings(points[..n][i], outcomes[..n][i], retrieveStatus);
          assert points[..n][i] == points[i] && outcomes[..n][i] == outcomes[i];
        }
      } else {
        forall i | 0 <= i < |points|
          ensures k !in PointReadings(points[i], outcomes[i], retrieveStatus)
        {
          if i < n {
            assert points[..n][i] == points[i] && outcomes[..n][i] == outcomes[i];
          }
        }
      }
    }
  }

  /**
    The value under a key is the one written by the last point that wrote it:
    a point is processed whatever happened at the points before it.
   */
  lemma {:induction false} ReadingsLastWrite(points: seq<Point>, outcomes: seq<PingOutcome>, retrieveStatus: bool, i: nat, k: string)
    requires |outcomes| == |points| && i < |points|
    requires k in PointReadings(points[i], outcomes[i], retrieveStatus)
    requires forall j :: i < j < |points| ==> k !in PointReadings(points[j], outcomes[j], retrieveStatus)
    ensures k in Readings(points, outcomes, retrieveStatus)
    ensures Readings(points, outcomes, retrieveStatus)[k] == PointReadings(points[i], outcomes[i], retrieveStatus)[k]
    decreases |points|
  {
    var n := |points| - 1;
    if i < n {
      assert points[..n][i] == points[i] && outcomes[..n][i] == outcomes[i];
      forall j | i < j < n
        ensures k !in PointReadings(points[..n][j], outcomes[..n][j], retrieveStatus)
      {
        assert points[..n][j] == points[j] && outcomes[..n][j] == outcomes[j];
      }
      ReadingsLastWrite(points[..n], outcomes[..n], retrieveStatus, i, k);
    }
  }

  /**
    The keys of Read's result, stated on the inputs alone: a point with an
    address contributes its name on Success, and its status key when
    RetrieveStatus is on or Send threw; nothing else is ever added.
   */
  lemma ReadKeysExactly(parameter: NetPingParameter, points: Option<seq<Point>>, outcomes: seq<PingOutcome>, k: string)
    requires points.Some? ==> |outcomes| == |points.value|
    ensures k in ReadResult(parameter, points, outcomes) <==>
      points.Some? && exists i :: 0 <= i < |points.value| && PointWrites(points.value[i], outcomes[i], parameter.retrieveStatus, k)
  {
    if points.Some? {
      var ps := points.value;
      ReadingsKeys(ps, outcomes, parameter.retrieveStatus, k);
      forall i | 0 <= i < |ps|
        ensures k in PointReadings(ps[i], outcomes[i], parameter.retrieveStatus)
                <==> PointWrites(ps[i], outcomes[i], parameter.retrieveStatus, k)
      {
        PointReadingsExactly(ps[i], outcomes[i], parameter.retrieveStatus, k);
      }
    }
  }

  /** No point's name is another point's name or another point's status key. */
  ghost predicate DistinctKeys(points: seq<Point>) {
    forall i, j :: 0 <= i < |points| && 0 <= j < |points| && i != j ==>
      points[i].name != points[j].name && points[i].name != StatusKey(points[j].name)
  }

  /** Under DistinctKeys a key is written by at most the point it belongs to. */
  lemma OnlyOwnerWrites(points: seq<Point>, outcomes: seq<PingOutcome>, retrieveStatus: bool, i: nat, k: string)
    requires |outcomes| == |points| && DistinctKeys(points) && i < |points|
    requires k == points[i].name || k == StatusKey(points[i].name)
    ensures forall j :: 0 <= j < |points| && j != i ==> k !in PointReadings(points[j], outcomes[j], retrieveStatus)
  {
    forall j | 0 <= j < |points| && j != i
      ensures k !in PointReadings(points[j], outcomes[j], retrieveStatus)
    {
      PointReadingsExactly(points[j], outcomes[j], retrieveStatus, k);
      StatusKeyInjective(points[i].name, points[j].name);
    }
  }

  /**
    Each point's entries in Read's result when keys do not collide: the
    latency exactly on Success, the status exactly when RetrieveStatus is on
    or Send threw (its message then), and nothing for a point without address.
    Every point gets this regardless of what the other points' pings did.
   */
  lemma ReadPerPoint(parameter: NetPingParameter, points: seq<Point>, outcomes: seq<PingOutcome>, i: nat)
    requires |outcomes| == |points| && DistinctKeys(points) && i < |points|
    ensures var r := ReadResult(parameter, Some(points), outcomes);
      && (points[i].name in r <==>
            !IsNullOrEmpty(points[i].address) && outcomes[i].Replied? && outcomes[i].status == Success)
      && (points[i].name in r ==> r[points[i].name] == Number(outcomes[i].roundtripTime))
      && (StatusKey(points[i].name) in r <==>
            !IsNullOrEmpty(points[i].address) && (outcomes[i].Threw? || parameter.retrieveStatus))
      && (StatusKey(points[i].name) in r ==> r[StatusKey(points[i].name)] == StatusValue(outcomes[i]))
  {
    var rs := parameter.retrieveStatus;
    var name := points[i].name;
    var key := StatusKey(name);
    OnlyOwnerWrites(points, outcomes, rs, i, name);
    OnlyOwnerWrites(points, outcomes, rs, i, key);
    PointReadingsExactly(points[i], outcomes[i], rs, name);
    PointReadingsExactly(points[i], outcomes[i], rs, key);
    ReadingsKeys(points, outcomes, rs, name);
    ReadingsKeys(points, outcomes, rs, key);
    if name in PointReadings(points[i], outcomes[i], rs) {
      ReadingsLastWrite(points, outcomes, rs, i, name);
    }
    if key in PointReadings(points[i], outcomes[i], rs) {
      ReadingsLastWrite(points, outcomes, rs, i, key);
    }
  }

  /** A null or empty point array reads as an empty dictionary. */
  lemma ReadEmpty(parameter: NetPingParameter, points: Option<seq<Point>>, outcomes: seq<PingOutcome>)
    requires points.Some? ==> |outcomes| == |points.value|
    requires points.None? || points.value == []
    ensures ReadResult(parameter, points, outcomes) == map[]
  {
  }

  /** An unreachable host with status retrieval on: only "a-Status" = "TimedOut", no latency key. */
  lemma TimedOutPoint(rtt: int)
    ensures ReadResult(NetPingParameter(200, true), Some([Point("a", Some("203.0.113.1"))]), [Replied(TimedOut, rtt)])
         == map["a-Status" := Text("TimedOut")]
  {
    var points := [Point("a", Some("203.0.113.1"))];
    var outcomes := [Replied(TimedOut, rtt)];
    assert points[..0] == [] && outcomes[..0] == [];
    assert StatusKey("a") == "a-Status";
    assert PointReadings(points[0], outcomes[0], true) == map["a-Status" := Text("TimedOut")];
  }
}
