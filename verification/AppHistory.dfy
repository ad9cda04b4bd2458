/** What the history of an application says about its state: the lifecycle seen from outside. */
module AppHistory {
  import opened Prelude
  import opened Mobility
  import opened CamApp

  datatype Change = Assign(vehicle: Vehicle) | Release | Start | Stop | Tag {
    predicate Switches() {
      Start? || Stop?
    }

    predicate Moves() {
      Assign? || Release?
    }
  }

  function Changed(a: App, c: Change): App {
    match c
    case Assign(v) => a.Assigned(v)
    case Release => a.Released()
    case Start => a.Started()
    case Stop => a.Stopped()
    case Tag => a.Tagged()
  }

  /** A new application after a history of changes. */
  function After(history: seq<Change>): App {
    if history == [] then App(false, false, None, 0) else Changed(After(history[..|history| - 1]), history[|history| - 1])
  }

  /** The last start or stop is at `i`, if there was one. */
  ghost predicate LastSwitch(history: seq<Change>, i: int) {
    && -1 <= i < |history| && (i >= 0 ==> history[i].Switches())
    && forall j :: i < j < |history| ==> !history[j].Switches()
  }

  /** The last assignment or release is at `i`, if there was one. */
  ghost predicate LastMove(history: seq<Change>, i: int) {
    && -1 <= i < |history| && (i >= 0 ==> history[i].Moves())
    && forall j :: i < j < |history| ==> !history[j].Moves()
  }

  ghost predicate Sends(history: seq<Change>, i: nat)
    requires i < |history|
  {
    history[i].Tag? && After(history[..i]).running && After(history[..i]).vehicle.Some?
  }

  /** The tags that fell into times of running with a vehicle. */
  ghost function Sent(history: seq<Change>): set<nat> {
    set i: nat | i < |history| && Sends(history, i)
  }

  lemma SwitchStays(init: seq<Change>, c: Change, i: int)
    requires LastSwitch(init + [c], i)
    ensures if c.Switches() then i == |init| else LastSwitch(init, i)
  {
    assert (init + [c])[|init|] == c && forall j :: 0 <= j < |init| ==> (init + [c])[j] == init[j];
  }

  lemma MoveStays(init: seq<Change>, c: Change, i: int)
    requires LastMove(init + [c], i)
    ensures if c.Moves() then i == |init| else LastMove(init, i)
  {
    assert (init + [c])[|init|] == c && forall j :: 0 <= j < |init| ==> (init + [c])[j] == init[j];
  }

  /** An application runs exactly if the last start or stop was a start. */
  lemma {:induction false} RunsIff(history: seq<Change>, i: int)
    requires LastSwitch(history, i)
    ensures After(history).running <==> i >= 0 && history[i].Start?
  {
    if history != [] {
      var init, c := history[..|history| - 1], history[|history| - 1];
      assert history == init + [c];
      SwitchStays(init, c, i);
      if !c.Switches() {
        RunsIff(init, i);
      }
    }
  }

  /** It has the vehicle of the last assignment, unless it was released since. */
  lemma {:induction false} CarriesIff(history: seq<Change>, i: int)
    requires LastMove(history, i)
    ensures After(history).vehicle == if i >= 0 && history[i].Assign? then Some(history[i].vehicle) else None
  {
    if history != [] {
      var init, c := history[..|history| - 1], history[|history| - 1];
      assert history == init + [c];
      MoveStays(init, c, i);
      if !c.Moves() {
        CarriesIff(init, i);
      }
    }
  }

  /** It disseminates exactly while it runs and has a vehicle, and has counted exactly the tags of such times. */
  lemma {:induction false} DisseminatesAndCounts(history: seq<Change>)
    ensures After(history).disseminating <==> After(history).running && After(history).vehicle.Some?
    ensures After(history).nextSequence == |Sent(history)|
  {
    if history == [] {
      assert Sent(history) == {};
    } else {
      var init, c := history[..|history| - 1], history[|history| - 1];
      assert history == init + [c];
      DisseminatesAndCounts(init);
      SentGrows(init, c);
    }
  }

  lemma SentGrows(init: seq<Change>, c: Change)
    ensures Sent(init + [c]) == Sent(init) + if Sends(init + [c], |init|) then {|init|} else {}
    ensures Sends(init + [c], |init|) <==> c.Tag? && After(init).running && After(init).vehicle.Some?
  {
    hide After;
    var history := init + [c];
    assert history[..|init|] == init;
    forall k: nat | k < |init| ensures Sends(history, k) <==> Sends(init, k) {
      assert history[..k] == init[..k];
    }
  }
}
