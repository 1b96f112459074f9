/** Print-failure monitoring: an exponentially weighted mean of frame scores, and an alert with hysteresis that
    re-arms only below half its threshold. */
module PrintMonitor {
  import opened Options
  import opened Ordering

  const ALPHA: real := 0.22
  const DECAY: real := 0.78

  datatype State = State(ewm: real, alerted: bool)

  const IDLE: State := State(0.0, false)

  datatype Params = Params(alert: real, publish: real)

  datatype Message = Message(cls: string, conf: real, box: Option<real>, ewm: real)

  function Score(boxes: seq<real>): real {
    if boxes == [] then 0.0 else Score(boxes[..|boxes| - 1]) + boxes[|boxes| - 1]
  }

  function NextMean(ewm: real, score: real): real { (1.0 - ALPHA) * ewm + ALPHA * score }

  function Next(s: State, score: real, alert: real): State {
    var ewm := NextMean(s.ewm, score);
    if ewm >= alert && !s.alerted then State(ewm, true)
    else if s.alerted && ewm < alert / 2.0 then State(ewm, false)
    else State(ewm, s.alerted)
  }

  predicate Raises(s: State, score: real, alert: real) { NextMean(s.ewm, score) >= alert && !s.alerted }

  function Strong(boxes: seq<real>, p: Params): seq<real> { Filter((c: real) => c >= p.publish, boxes) }

  function Messages(s: State, boxes: seq<real>, p: Params): seq<Message> {
    var ewm, strong := NextMean(s.ewm, Score(boxes)), Strong(boxes, p);
    var best := if strong == [] then None else Some(strong[0]);
    (if strong == [] then [] else [Message("spaghetti", strong[0], best, ewm)])
      + (if Raises(s, Score(boxes), p.alert)
        then [Message("print_failure", if ewm < 0.99 then ewm else 0.99, best, ewm)] else [])
  }

  class Monitor {
    var states: map<string, State>

    constructor ()
      ensures states == map[]
    {
      states := map[];
    }

    function StateOf(camera: string): State
      reads this
    {
      if camera in states then states[camera] else IDLE
    }

    /** One monitoring step of one camera; `boxes` are the confidences of the detected boxes. */
    method Sample(camera: string, boxes: seq<real>, p: Params) returns (out: seq<Message>)
      modifies this
      ensures states == old(states)[camera := Next(old(StateOf(camera)), Score(boxes), p.alert)]
      ensures out == Messages(old(StateOf(camera)), boxes, p)
    {
      var score := 0.0;
      for i := 0 to |boxes|
        invariant score == Score(boxes[..i])
      {
        assert boxes[..i + 1][..i] == boxes[..i];
        score := score + boxes[i];
      }
      assert boxes[..|boxes|] == boxes;
      var st := StateOf(camera);
      st := st.(ewm := (1.0 - ALPHA) * st.ewm + ALPHA * score);
      out := [];
      var strong := Strong(boxes, p);
      if strong != [] { out := [Message("spaghetti", strong[0], Some(strong[0]), st.ewm)]; }
      if st.ewm >= p.alert && !st.alerted {
        st := st.(alerted := true);
        var box := if strong == [] then None else Some(strong[0]);
        out := out + [Message("print_failure", if st.ewm < 0.99 then st.ewm else 0.99, box, st.ewm)];
      } else if st.alerted && st.ewm < p.alert / 2.0 {
        st := st.(alerted := false);
      }
      states := states[camera := st];
    }
  }

  // ---- The mean --------------------------------------------------------------------------------------

  function Run(scores: seq<real>, alert: real): State {
    if scores == [] then IDLE else Next(Run(scores[..|scores| - 1], alert), scores[|scores| - 1], alert)
  }

  /** The mean after step i. */
  function Mean(scores: seq<real>, alert: real, i: nat): real
    requires i < |scores|
  {
    Run(scores[..i + 1], alert).ewm
  }

  lemma {:induction false} MeanBounded(scores: seq<real>, alert: real, top: real)
    requires top >= 0.0 && forall i :: 0 <= i < |scores| ==> 0.0 <= scores[i] <= top
    ensures 0.0 <= Run(scores, alert).ewm <= top
  {
    if scores != [] { MeanBounded(scores[..|scores| - 1], alert, top); }
  }

  function Power(x: real, n: nat): real { if n == 0 then 1.0 else x * Power(x, n - 1) }

  /** The sum over i of ALPHA * DECAY^(n-1-i) * scores[i]. */
  function GeometricSum(scores: seq<real>): real {
    if scores == [] then 0.0 else ALPHA * Power(DECAY, |scores| - 1) * scores[0] + GeometricSum(scores[1..])
  }

  lemma {:induction false} GeometricAppend(scores: seq<real>, x: real)
    ensures GeometricSum(scores + [x]) == DECAY * GeometricSum(scores) + ALPHA * x
  {
    if scores == [] {
      assert ([] + [x])[1..] == [];
    } else {
      GeometricAppend(scores[1..], x);
      assert (scores + [x])[1..] == scores[1..] + [x];
      var p := Power(DECAY, |scores| - 1);
      assert ALPHA * (DECAY * p) * scores[0] == DECAY * (ALPHA * p * scores[0]);
    }
  }

  lemma {:induction false} MeanIsGeometricSum(scores: seq<real>, alert: real)
    ensures Run(scores, alert).ewm == GeometricSum(scores)
  {
    if scores != [] {
      var n := |scores| - 1;
      MeanIsGeometricSum(scores[..n], alert);
      GeometricAppend(scores[..n], scores[n]);
      assert scores[..n] + [scores[n]] == scores;
    }
  }

  // ---- The alert -------------------------------------------------------------------------------------

  predicate AlertAt(scores: seq<real>, alert: real, j: nat)
    requires j < |scores|
  {
    Raises(Run(scores[..j], alert), scores[j], alert)
  }

  /** Step i was over the threshold and nothing since, below n, fell under half of it. */
  ghost predicate Outstanding(scores: seq<real>, alert: real, i: nat, n: nat)
    requires i < n <= |scores|
  {
    Mean(scores, alert, i) >= alert && forall k :: i < k < n ==> !(Mean(scores, alert, k) < alert / 2.0)
  }

  lemma {:induction false} AlertedExactly(scores: seq<real>, alert: real, n: nat)
    requires alert > 0.0 && n <= |scores|
    ensures Run(scores[..n], alert).alerted <==> exists i :: 0 <= i < n && Outstanding(scores, alert, i, n)
  {
    if n > 0 {
      var m := n - 1;
      AlertedExactly(scores, alert, m);
      assert scores[..n][..m] == scores[..m];
      assert Mean(scores, alert, m) == Run(scores[..n], alert).ewm;
      if Mean(scores, alert, m) >= alert { assert Outstanding(scores, alert, m, n); }
      if i :| 0 <= i < m && Outstanding(scores, alert, i, m) {
        if !(Mean(scores, alert, m) < alert / 2.0) { assert Outstanding(scores, alert, i, n); }
      }
      if i :| 0 <= i < n && Outstanding(scores, alert, i, n) {
        if i < m { assert Outstanding(scores, alert, i, m); }
      }
    }
  }

  /** A step alerts exactly when the mean is over the threshold and every earlier step that was over it has been
      followed by one under half of it. */
  lemma AlertsExactly(scores: seq<real>, alert: real, j: nat)
    requires alert > 0.0 && j < |scores|
    ensures AlertAt(scores, alert, j) <==>
      Mean(scores, alert, j) >= alert
      && forall i :: 0 <= i < j && Mean(scores, alert, i) >= alert
                     ==> exists k :: i < k < j && Mean(scores, alert, k) < alert / 2.0
  {
    AlertedExactly(scores, alert, j);
    assert scores[..j + 1][..j] == scores[..j];
    assert Mean(scores, alert, j) == NextMean(Run(scores[..j], alert).ewm, scores[j]);
    forall i | 0 <= i < j && Mean(scores, alert, i) >= alert
      ensures Outstanding(scores, alert, i, j) <==> !exists k :: i < k < j && Mean(scores, alert, k) < alert / 2.0
    {
    }
  }

  lemma AlertsSeparated(scores: seq<real>, alert: real, i: nat, j: nat)
    requires alert > 0.0 && i < j < |scores| && AlertAt(scores, alert, i) && AlertAt(scores, alert, j)
    ensures exists k :: i < k < j && Mean(scores, alert, k) < alert / 2.0
  {
    AlertsExactly(scores, alert, i);
    AlertsExactly(scores, alert, j);
  }

  // ---- Decay and re-arming -----------------------------------------------------------------------------

  function Zeros(k: nat): seq<real> { seq(k, i => 0.0) }

  lemma {:induction false} ZerosDecay(scores: seq<real>, alert: real, k: nat)
    ensures Run(scores + Zeros(k), alert).ewm == Power(DECAY, k) * Run(scores, alert).ewm
  {
    var all := scores + Zeros(k);
    if k == 0 {
      assert all == scores;
    } else {
      ZerosDecay(scores, alert, k - 1);
      assert all[..|all| - 1] == scores + Zeros(k - 1);
      assert all[|all| - 1] == 0.0;
    }
  }

  lemma {:induction false} ThreeHalve(j: nat)
    ensures Power(DECAY, 3 * j) * Power(2.0, j) <= 1.0
    ensures Power(2.0, j) > 0.0 && Power(DECAY, 3 * j) > 0.0
  {
    if j > 0 {
      ThreeHalve(j - 1);
      var p, q := Power(DECAY, 3 * (j - 1)), Power(2.0, j - 1);
      assert Power(DECAY, 3 * j) == DECAY * Power(DECAY, 3 * j - 1);
      assert Power(DECAY, 3 * j - 1) == DECAY * Power(DECAY, 3 * j - 2);
      assert Power(DECAY, 3 * j - 2) == DECAY * p;
      assert Power(DECAY, 3 * j) == 0.474552 * p;
      assert Power(DECAY, 3 * j) * Power(2.0, j) == 0.949104 * (p * q);
    }
  }

  /** Once the print is cleared, 3 * j frames re-arm the alert as soon as 2^j exceeds twice the largest score over
      the threshold. */
  lemma RearmsWithin(scores: seq<real>, alert: real, top: real, j: nat)
    requires alert > 0.0 && j >= 1
    requires top >= 0.0 && forall i :: 0 <= i < |scores| ==> 0.0 <= scores[i] <= top
    requires 2.0 * top < alert * Power(2.0, j)
    ensures !Run(scores + Zeros(3 * j), alert).alerted
  {
    MeanBounded(scores, alert, top);
    ZerosDecay(scores, alert, 3 * j);
    ThreeHalve(j);
    HalfReached(Run(scores, alert).ewm, top, alert, Power(DECAY, 3 * j), Power(2.0, j));
    LowIsArmed(scores + Zeros(3 * j), alert);
  }

  lemma LowIsArmed(scores: seq<real>, alert: real)
    requires alert > 0.0 && scores != [] && Run(scores, alert).ewm < alert / 2.0
    ensures !Run(scores, alert).alerted
  {
  }

  lemma HalfReached(ewm: real, top: real, alert: real, p: real, q: real)
    requires 0.0 <= ewm <= top && 2.0 * top < alert * q && p > 0.0 && p * q <= 1.0 && alert > 0.0
    ensures p * ewm < alert / 2.0
  {
    Scaled(ewm, top, p);
    ScaledStrict(2.0 * top, alert * q, p);
    Scaled(p * q, 1.0, alert);
    Regroup(p, q, alert);
    assert p * (2.0 * top) == 2.0 * (p * top);
  }

  lemma Regroup(p: real, q: real, a: real)
    ensures p * (a * q) == a * (p * q)
  {
  }

  lemma Scaled(a: real, b: real, p: real)
    requires a <= b && p >= 0.0
    ensures p * a <= p * b
  {
  }

  lemma ScaledStrict(a: real, b: real, p: real)
    requires a < b && p > 0.0
    ensures p * a < p * b
  {
  }

  // ---- Messages ----------------------------------------------------------------------------------------

  function Scores(frames: seq<seq<real>>): seq<real> { seq(|frames|, i requires 0 <= i < |frames| => Score(frames[i])) }

  /** A frame's score is the sum of its confidences. */
  lemma {:induction false} ScoreAdds(a: seq<real>, b: seq<real>)
    ensures Score([]) == 0.0 && (forall c: real :: Score([c]) == c) && Score(a + b) == Score(a) + Score(b)
  {
    forall c: real ensures Score([c]) == c { assert [c][..0] == []; }
    if b == [] {
      assert a + b == a;
    } else {
      ScoreAdds(a, b[..|b| - 1]);
      assert (a + b)[..|a + b| - 1] == a + b[..|b| - 1];
    }
  }

  /** The confidence of the first box strong enough to publish. */
  ghost predicate FirstStrong(boxes: seq<real>, publish: real, box: Option<real>) {
    match box
    case Some(c) =>
      exists k :: 0 <= k < |boxes| && boxes[k] == c >= publish && forall i :: 0 <= i < k ==> boxes[i] < publish
    case None => forall i :: 0 <= i < |boxes| ==> boxes[i] < publish
  }

  lemma {:induction false} StrongFirst(boxes: seq<real>, p: Params)
    ensures FirstStrong(boxes, p.publish, if Strong(boxes, p) == [] then None else Some(Strong(boxes, p)[0]))
  {
    if boxes != [] && boxes[0] < p.publish {
      StrongFirst(boxes[1..], p);
      assert Strong(boxes, p) == Strong(boxes[1..], p);
      if Strong(boxes, p) == [] {
        forall i | 0 <= i < |boxes| ensures boxes[i] < p.publish { assert i > 0 ==> boxes[i] == boxes[1..][i - 1]; }
      } else {
        var k :| 0 <= k < |boxes[1..]| && boxes[1..][k] == Strong(boxes, p)[0] >= p.publish
                 && forall i :: 0 <= i < k ==> boxes[1..][i] < p.publish;
        assert boxes[k + 1] == Strong(boxes, p)[0];
        forall i | 0 <= i < k + 1 ensures boxes[i] < p.publish { assert i > 0 ==> boxes[i] == boxes[1..][i - 1]; }
      }
    } else if boxes != [] {
      assert Strong(boxes, p)[0] == boxes[0];
    }
  }

  /** What the monitor sends after frame j of a camera. */
  function Sent(frames: seq<seq<real>>, p: Params, j: nat): seq<Message>
    requires j < |frames|
  {
    Messages(Run(Scores(frames)[..j], p.alert), frames[j], p)
  }

  /** The geometric mean up to and with frame i. */
  function SumAt(scores: seq<real>, i: nat): real
    requires i < |scores|
  {
    GeometricSum(scores[..i + 1])
  }

  /** The mean is over the threshold, and wherever it was before it fell under half of it since. */
  ghost predicate Alerts(scores: seq<real>, alert: real, j: nat)
    requires j < |scores|
  {
    && SumAt(scores, j) >= alert
    && forall i :: 0 <= i < j && SumAt(scores, i) >= alert ==> exists k :: i < k < j && SumAt(scores, k) < alert / 2.0
  }

  lemma AlertsIs(scores: seq<real>, alert: real, j: nat)
    requires alert > 0.0 && j < |scores|
    ensures Alerts(scores, alert, j) <==> AlertAt(scores, alert, j)
  {
    AlertsExactly(scores, alert, j);
    forall i | 0 <= i < |scores| ensures Mean(scores, alert, i) == SumAt(scores, i) {
      MeanIsGeometricSum(scores[..i + 1], alert);
    }
  }

  /** Main result, for every run of frames: a frame is answered by a detection of its first strong box if it has one,
    and
      then by a print failure if it alerts, with that box, the mean and the mean capped at 0.99 as confidence. */
  lemma SentExactly(frames: seq<seq<real>>, p: Params, j: nat) returns (box: Option<real>)
    requires p.alert > 0.0 && j < |frames|
    ensures FirstStrong(frames[j], p.publish, box)
    ensures var m, alerts := SumAt(Scores(frames), j), Alerts(Scores(frames), p.alert, j);
            var conf := if m <= 0.99 then m else 0.99;
            && (box.Some? && alerts ==>
                  Sent(frames, p, j) ==
                    [Message("spaghetti", box.value, box, m), Message("print_failure", conf, box, m)])
            && (box.Some? && !alerts ==> Sent(frames, p, j) == [Message("spaghetti", box.value, box, m)])
            && (box.None? && alerts ==> Sent(frames, p, j) == [Message("print_failure", conf, box, m)])
            && (box.None? && !alerts ==> Sent(frames, p, j) == [])
  {
    var scores, strong := Scores(frames), Strong(frames[j], p);
    box := if strong == [] then None else Some(strong[0]);
    StrongFirst(frames[j], p);
    AlertsIs(scores, p.alert, j);
    MeanIsGeometricSum(scores[..j + 1], p.alert);
    assert scores[..j + 1][..j] == scores[..j] && scores[..j + 1][j] == Score(frames[j]);
    MessagesAre(Run(scores[..j], p.alert), frames[j], p, box);
  }

  lemma MessagesAre(s: State, boxes: seq<real>, p: Params, box: Option<real>)
    requires box == if Strong(boxes, p) == [] then None else Some(Strong(boxes, p)[0])
    ensures var m, alerts := NextMean(s.ewm, Score(boxes)), Raises(s, Score(boxes), p.alert);
            Messages(s, boxes, p) ==
              (if box.Some? then [Message("spaghetti", box.value, box, m)] else [])
              + (if alerts then [Message("print_failure", if m <= 0.99 then m else 0.99, box, m)] else [])
  {
  }
}
