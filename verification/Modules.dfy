/** The vocabulary of the core's module management: states, records, events and the log of what
    was published. */
module Modules {
  import opened Options

  datatype ModuleState =
    | Unregistered | Starting | Registered | Healthy | Degraded
    | Stopping | Stopped | Failed | PermanentlyFailed

  datatype Record = Record(
    state: ModuleState, lastSeen: Option<real>, restartCount: nat, restartTimes: seq<real>)

  const NEW_RECORD := Record(Unregistered, None, 0, [])

  datatype Entry = Entry(version: string, methods: set<string>, events: set<string>, dependsOn: seq<string>)

  /** What the supervisor is told of a module. */
  datatype Spec = Spec(name: string, dependsOn: seq<string>, external: bool)

  datatype Event =
    | StateChanged(name: string, src: ModuleState, dst: ModuleState)
    | EntryAdded(name: string, entry: Entry)
    | EntryRemoved(name: string)

  /** The exceptions of the source that reach a caller. */
  datatype Error = KeyError | InvalidTransition | ValueError

  datatype Config = Config(heartbeatIntervalS: int, heartbeatDeadThreshold: int, restartMaxPerHour: int)

  /** What the lifecycle manager knows: the tracked names in order, their records, and the events
      published so far. */
  datatype State = State(names: seq<string>, records: map<string, Record>, events: seq<Event>)

  const INITIAL := State([], map[], [])

  /** The broker, as the components that publish to it see it. */
  class EventLog {
    var published: seq<Event>

    constructor ()
      ensures published == []
    {
      published := [];
    }

    method Publish(e: Event)
      modifies this
      ensures published == old(published) + [e]
    {
      published := published + [e];
    }
  }
}
