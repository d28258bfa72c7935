/// The official WCA events of `norcina-core/src/event/mod.rs`: a constant
/// table of ids, names and a numeric id that indexes `ALL`.
module Events {

  datatype Event =
    | Cube2 | Cube3 | Cube4 | Cube5 | Cube6 | Cube7
    | Blind3 | Blind4 | Blind5 | Multiblind | FewestMoves | OneHanded
    | Clock | Megaminx | Pyraminx | Skewb | Square1
  {
    /// `str_id`: the id the WCA uses in its result pages.
    function StrId(): string {
      match this
      case Cube2 => "222"
      case Cube3 => "333"
      case Cube4 => "444"
      case Cube5 => "555"
      case Cube6 => "666"
      case Cube7 => "777"
      case Blind3 => "333bf"
      case Blind4 => "444bf"
      case Blind5 => "555bf"
      case Multiblind => "333mbf"
      case FewestMoves => "333fm"
      case OneHanded => "333oh"
      case Clock => "clock"
      case Megaminx => "minx"
      case Pyraminx => "pyram"
      case Skewb => "skewb"
      case Square1 => "sq-1"
    }

    /// `full_name`: the WCA's name of the event.
    function FullName(): string {
      match this
      case Cube2 => "2x2x2 Cube"
      case Cube3 => "3x3x3 Cube"
      case Cube4 => "4x4x4 Cube"
      case Cube5 => "5x5x5 Cube"
      case Cube6 => "6x6x6 Cube"
      case Cube7 => "7x7x7 Cube"
      case Blind3 => "3x3x3 Blindfolded"
      case Blind4 => "4x4x4 Blindfolded"
      case Blind5 => "5x5x5 Blindfolded"
      case Multiblind => "3x3x3 Multi-Blind"
      case FewestMoves => "3x3x3 Fewest Moves"
      case OneHanded => "3x3x3 One-Handed"
      case Clock => "Clock"
      case Megaminx => "Megaminx"
      case Pyraminx => "Pyraminx"
      case Skewb => "Skewb"
      case Square1 => "Square-1"
    }

    /// `short_name`: a common informal name.
    function ShortName(): string {
      match this
      case Cube2 => "2x2"
      case Cube3 => "3x3"
      case Cube4 => "4x4"
      case Cube5 => "5x5"
      case Cube6 => "6x6"
      case Cube7 => "7x7"
      case Blind3 => "3BLD"
      case Blind4 => "4BLD"
      case Blind5 => "5BLD"
      case Multiblind => "Multiblind"
      case FewestMoves => "FM"
      case OneHanded => "OH"
      case Clock => "Clock"
      case Megaminx => "Megaminx"
      case Pyraminx => "Pyraminx"
      case Skewb => "Skewb"
      case Square1 => "Square-1"
    }

    /// `id`: the event's place in `ALL`.
    function Id(): (r: nat)
      ensures r < |ALL| && ALL[r] == this
    {
      match this
      case Cube2 => 0
      case Cube3 => 1
      case Cube4 => 2
      case Cube5 => 3
      case Cube6 => 4
      case Cube7 => 5
      case Blind3 => 6
      case Blind4 => 7
      case Blind5 => 8
      case Multiblind => 9
      case FewestMoves => 10
      case OneHanded => 11
      case Clock => 12
      case Megaminx => 13
      case Pyraminx => 14
      case Skewb => 15
      case Square1 => 16
    }

    /// `Display`: the short name.
    function Display(): (s: string)
      ensures |s| > 0
    {
      ShortName()
    }
  }

  const ALL: seq<Event> := [
    Cube2, Cube3, Cube4, Cube5, Cube6, Cube7,
    Blind3, Blind4, Blind5, Multiblind, FewestMoves, OneHanded,
    Clock, Megaminx, Pyraminx, Skewb, Square1
  ]

  /// `#[default]`: the 3x3x3 cube.
  function Default(): (e: Event)
    ensures e.Id() == 1 && e.StrId() == "333"
  {
    Cube3
  }

  /// `id` is a bijection between the events and `0..17`: every event sits at
  /// its id in `ALL`, and every index of `ALL` is the id of its event.
  lemma IdBijection(e: Event, f: Event, i: nat)
    ensures |ALL| == 17
    ensures e.Id() == f.Id() ==> e == f
    ensures i < |ALL| ==> ALL[i].Id() == i
  {
  }

  /// No two events share a WCA id.
  lemma StrIdInjective(e: Event, f: Event)
    ensures e.StrId() == f.StrId() ==> e == f
  {
  }

  /// No two events share a short name, so `Display` tells events apart.
  lemma DisplayInjective(e: Event, f: Event)
    ensures e.Display() == f.Display() ==> e == f
  {
  }

  /// No two events share a full name.
  lemma FullNameInjective(e: Event, f: Event)
    ensures e.FullName() == f.FullName() ==> e == f
  {
  }
}
