/// Events and sessions of the timer app (`pesto-core/src/event.rs`): the
/// official events, user-defined events, and the list the app shows.
module PestoEvents {
  import opened Wrappers
  import Events

  /// A session groups the solves of one event.
  datatype Session = Main | Custom(name: string, id: nat) {
    function Name(): (r: string)
      ensures Main? ==> r == "main"
      ensures Custom? ==> r == name
    {
      match this
      case Main => "main"
      case Custom(name, _) => name
    }

    function Id(): (r: nat)
      ensures Main? ==> r == 0
      ensures Custom? ==> r == id
    {
      match this
      case Main => 0
      case Custom(_, id) => id
    }
  }

  /// An event the user added, optionally scrambled like an official one.
  datatype CustomEvent = CustomEvent(id: nat, name: string, scrambleType: Option<Events.Event>)

  datatype MaybeCustomEvent = Official(event: Events.Event) | Unofficial(custom: CustomEvent) {
    /// `scramble_type`: an official event scrambles as itself.
    function ScrambleType(): (r: Option<Events.Event>)
      ensures Official? ==> r == Some(event)
      ensures Unofficial? ==> r == custom.scrambleType
    {
      match this
      case Official(event) => Some(event)
      case Unofficial(custom) => custom.scrambleType
    }

    function ShortName(): (r: string)
      ensures Official? ==> r == event.ShortName()
      ensures Unofficial? ==> r == custom.name
    {
      match this
      case Official(event) => event.ShortName()
      case Unofficial(custom) => custom.name
    }

    /// `id`: an official event's id is its place in `Event::ALL`.
    function Id(): (r: nat)
      ensures Official? ==> r < 17 && Events.ALL[r] == event
      ensures Unofficial? ==> r == custom.id
    {
      match this
      case Official(event) => event.Id()
      case Unofficial(custom) => custom.id
    }
  }

  /// `Default`: the official 3x3x3 cube.
  function DefaultEvent(): (e: MaybeCustomEvent)
    ensures e.Official? && e.Id() == 1 && e.ScrambleType() == Some(Events.Cube3)
  {
    Official(Events.Default())
  }

  /// The custom events and, for each event id, its sessions.
  datatype EventSessionList = EventSessionList(customEvents: seq<CustomEvent>, sessions: seq<seq<Session>>) {
    /// `events`: the official events in `ALL` order, then the custom events
    /// in the order they were added.
    function AllEvents(): (es: seq<MaybeCustomEvent>)
      ensures |es| == |Events.ALL| + |customEvents|
      ensures forall i :: 0 <= i < |Events.ALL| ==> es[i] == Official(Events.ALL[i])
      ensures forall j :: 0 <= j < |customEvents| ==> es[|Events.ALL| + j] == Unofficial(customEvents[j])
    {
      seq(|Events.ALL|, i requires 0 <= i < |Events.ALL| => Official(Events.ALL[i]))
      + seq(|customEvents|, j requires 0 <= j < |customEvents| => Unofficial(customEvents[j]))
    }

    /// `sessions_of`: the sessions stored under the event's id; the source
    /// indexes without a check, so the id must be in range.
    function SessionsOf(event: MaybeCustomEvent): (r: seq<Session>)
      requires event.Id() < |sessions|
      ensures r == sessions[event.Id()]
    {
      sessions[event.Id()]
    }
  }

  /// Every official event is listed at the position of its own id, and every
  /// event in the list has the scramble type its variant promises.
  lemma OfficialEventsAtTheirIds(l: EventSessionList, e: Events.Event)
    ensures l.AllEvents()[e.Id()] == Official(e)
    ensures l.AllEvents()[e.Id()].Id() == e.Id()
  {
  }

  /// The official events come first, each once: the first 17 entries have
  /// the ids 0 to 16 in order.
  lemma ListedIdsInOrder(l: EventSessionList, i: nat)
    requires i < 17
    ensures l.AllEvents()[i].Id() == i
  {
    Events.IdBijection(Events.ALL[i], Events.ALL[i], i);
  }
}
