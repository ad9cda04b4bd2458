/** The CAM application of one physical radio: lifecycle flags and the per-application sequence counter. */
module CamApp {
  import opened Prelude
  import opened Mobility

  /** The value of an application's fields. */
  datatype App = App(running: bool, disseminating: bool, vehicle: Option<Vehicle>, nextSequence: nat) {
    /** An application disseminates exactly while it is running and has a vehicle. */
    ghost predicate Ok() {
      disseminating <==> running && vehicle.Some?
    }

    function Assigned(v: Vehicle): App {
      this.(vehicle := Some(v), disseminating := disseminating || running)
    }

    function Released(): App {
      this.(vehicle := None, disseminating := false)
    }

    function Started(): App {
      this.(running := true, disseminating := disseminating || vehicle.Some?)
    }

    function Stopped(): App {
      this.(running := false, disseminating := false)
    }

    predicate Tags() {
      running && vehicle.Some?
    }

    function Tagged(): App {
      if Tags() then this.(nextSequence := nextSequence + 1) else this
    }
  }

  class CamApplication {
    var running: bool
    var disseminating: bool
    var vehicle: Option<Vehicle>
    var nextSequence: nat

    ghost function View(): App
      reads this
    {
      App(running, disseminating, vehicle, nextSequence)
    }

    constructor ()
      ensures View() == App(false, false, None, 0)
    {
      running, disseminating, vehicle, nextSequence := false, false, None, 0;
    }

    method AssignVehicle(v: Vehicle)
      modifies this
      ensures View() == old(View()).Assigned(v)
    {
      vehicle := Some(v);
      if running {
        StartCamIfReady();
      }
    }

    method ReleaseVehicle()
      modifies this
      ensures View() == old(View()).Released()
    {
      StopCamIfRunning();
      vehicle := None;
    }

    method StartApplication()
      modifies this
      ensures View() == old(View()).Started()
    {
      running := true;
      StartCamIfReady();
    }

    method StopApplication()
      modifies this
      ensures View() == old(View()).Stopped()
    {
      running := false;
      StopCamIfRunning();
    }

    /** The counter part of tagging an outgoing message: the tag it carries, if any. */
    method Tag() returns (tag: Option<(Vehicle, nat)>)
      modifies this`nextSequence
      ensures View() == old(View()).Tagged()
      ensures tag == if old(View()).Tags() then Some((vehicle.value, old(nextSequence))) else None
    {
      if !running || vehicle == None {
        return None;
      }
      tag := Some((vehicle.value, nextSequence));
      nextSequence := nextSequence + 1;
    }

    method StartCamIfReady()
      modifies this`disseminating
      ensures disseminating == (old(disseminating) || (running && vehicle.Some?))
    {
      if !running || disseminating || vehicle == None {
        return;
      }
      disseminating := true;
    }

    method StopCamIfRunning()
      modifies this`disseminating
      ensures !disseminating
    {
      if !disseminating {
        return;
      }
      disseminating := false;
    }
  }
}
