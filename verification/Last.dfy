/** internal/last: what the agent remembers of its last successful apply. */
module Last {
  import opened Text
  import opened Bundle
  import opened InterfaceBatch

  datatype Sections = Sections(iface: string, routes: seq<string>, peers: seq<string>)

  const NO_SECTIONS := Sections("", [], [])

  datatype Record = Record(content: Interface, sections: Sections)

  datatype FirewallState = FirewallState(zoneOwned: bool, members: seq<string>)

  const NO_FIREWALL := FirewallState(false, [])

  datatype State = State(wg: map<string, Record>, stunmesh: string, firewall: FirewallState)

  const EMPTY_STATE := State(map[], "", NO_FIREWALL)

  // last.json as a cell: written whole or not at all.
  datatype LastFile = Missing | Corrupt | Stored(state: State)

  // Read: a missing file is an empty state, a corrupt one is an error.
  function Read(file: LastFile): Option<State> {
    match file
    case Missing => Some(EMPTY_STATE)
    case Corrupt => None
    case Stored(state) => Some(state)
  }

  function SectionsFor(name: string, i: Interface): Sections {
    Sections(name, RouteNames(name, i.routes), PeerNames(name, i.peers))
  }

  function Contents(state: State): map<string, Interface> { map name | name in state.wg :: state.wg[name].content }

  // Every record names the sections of its content, and its content passed validation.
  predicate WellRecorded(state: State) {
    forall name :: name in state.wg ==>
      ValidInterface(state.wg[name].content) && state.wg[name].sections == SectionsFor(name, state.wg[name].content)
  }
}
