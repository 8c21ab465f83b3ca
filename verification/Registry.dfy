/** Lazy loading in the process-wide connection registry.

    Callers look a code up, and on a miss take the load lock, look again, and only then load, connect
    and publish. Each await, and each write to a shared map, is one step; callers interleave freely
    between steps, a fallible await may fail, and a waiting caller may be cancelled. Models and
    aliases are fixed while the registry runs. */
module Registry {
  import opened Wrappers

  type Code = string

  /** `db` tells connections apart: clones of one `Db` share it. */
  datatype Connection = Connection(db: nat, code: Code, url: Option<string>)

  const BASE: Code := "base"

  /** What is registered up front: the alias table and the codes that have models. */
  datatype Setup = Setup(aliases: map<Code, Code>, models: set<Code>) {
    predicate Modelled(code: Code) { code in models || code == BASE }

    predicate IsAlias(code: Code) { code in aliases }

    function SourceOf(code: Code): Code {
      if code in aliases then aliases[code] else code
    }

    function AliasesOf(source: Code): set<Code> {
      set alias | alias in aliases && aliases[alias] == source
    }

    function ModelledAliasesOf(source: Code): set<Code> {
      set alias | alias in AliasesOf(source) && Modelled(alias)
    }
  }

  /** No source of an alias is an alias itself. */
  predicate Flat(aliases: map<Code, Code>) {
    forall alias :: alias in aliases ==> aliases[alias] !in aliases
  }

  method CheckValues(aliases: map<Code, Code>) returns (ok: bool)
    ensures ok <==> Flat(aliases)
  {
    var pending := aliases.Keys;
    while pending != {}
      invariant pending <= aliases.Keys
      invariant forall alias :: alias in aliases && alias !in pending ==> aliases[alias] !in aliases
      decreases |pending|
    {
      var alias :| alias in pending;
      if aliases[alias] in aliases {
        return false;
      }
      pending := pending - {alias};
    }
    ok := true;
  }

  function AliasView(alias: Code, source: Connection): Connection {
    source.(code := alias)
  }

  /** The lock-free look-up; a model-less alias is a view of its source. */
  function Cached(setup: Setup, connections: map<Code, Connection>, code: Code): Option<Connection> {
    if setup.IsAlias(code) && !setup.Modelled(code) then
      if setup.SourceOf(code) in connections then Some(AliasView(code, connections[setup.SourceOf(code)])) else None
    else if code in connections then Some(connections[code])
    else None
  }

  /** Where a call of `get_or_load` stands; from `Locked` to `BuildOwn` it holds the load lock. */
  datatype Pc =
    | Start
    | Waiting
    | Locked
    | Query
    | Connect
    | Derive(con: Connection, derived: map<Code, Connection>)
    | PublishSource(con: Connection, derived: map<Code, Connection>)
    | PublishAliases(con: Connection, derived: map<Code, Connection>, left: set<Code>)
    | Deliver(con: Connection)
    | BuildOwn(con: Connection)
    | Done(con: Connection)
    | Failed

  /** `wrote` records whether the call has changed the map. */
  datatype Call = Call(code: Code, pc: Pc, wrote: bool)

  predicate Holding(pc: Pc) {
    !pc.Start? && !pc.Waiting? && !pc.Done? && !pc.Failed?
  }

  /** From publishing to delivering there is no await, so a call cannot be cancelled there. */
  predicate Cancellable(pc: Pc) {
    !pc.PublishSource? && !pc.PublishAliases? && !pc.Deliver? && !pc.Done?
  }

  datatype System = System(
    connections: map<Code, Connection>, next: nat, published: seq<Code>, holder: Option<nat>, calls: seq<Call>)

  /** How an awaited operation turns out, and which alias a loop over an unordered map visits next. */
  datatype Choice = Choice(ok: bool, url: string, alias: Code)

  datatype Action = Spawn(code: Code) | Advance(call: nat, choice: Choice) | Cancel(call: nat)

  /** What one step of a call does to the shared state and to the call. */
  datatype Effect = Effect(connections: map<Code, Connection>, next: nat, published: seq<Code>, pc: Pc)

  function CallStep(setup: Setup, connections: map<Code, Connection>, next: nat, published: seq<Code>, code: Code,
                    pc: Pc,
                    choice: Choice): Effect
  {
    var same := Effect(connections, next, published, pc);
    var source := setup.SourceOf(code);
    match pc
    case Start =>
      (match Cached(setup, connections, code)
       case Some(con) => same.(pc := Done(con))
       case None => same.(pc := Waiting))
    case Waiting => same
    case Locked =>
      (match Cached(setup, connections, code)
       case Some(con) => same.(pc := Done(con))
       case None =>
         if source in connections then same.(pc := Deliver(connections[source]))
         else if source == BASE then same.(pc := Failed)
         else same.(pc := Query))
    case Query =>
      if BASE in connections && choice.ok && setup.Modelled(source) then same.(pc := Connect) else same.(pc := Failed)
    case Connect =>
      if choice.ok then
        Effect(connections, next + 1, published, Derive(Connection(next, source, Some(choice.url)), map[]))
      else same.(pc := Failed)
    case Derive(con, derived) =>
      if setup.ModelledAliasesOf(source) <= derived.Keys then same.(pc := PublishSource(con, derived))
      else if choice.alias !in setup.ModelledAliasesOf(source) - derived.Keys then same
      else if choice.ok then
        Effect(connections, next + 1, published, Derive(con, derived[choice.alias := Connection(next, choice.alias, con.url)]))
      else same.(pc := Failed)
    case PublishSource(con, derived) =>
      Effect(connections[source := con], next, published + [source], PublishAliases(con, derived, setup.AliasesOf(source)))
    case PublishAliases(con, derived, left) =>
      if left == {} then same.(pc := Deliver(con))
      else if choice.alias !in left then same
      else
        Effect(if choice.alias in derived then connections[choice.alias := derived[choice.alias]]
               else connections - {choice.alias},
               next, published, PublishAliases(con, derived, left - {choice.alias}))
    case Deliver(con) =>
      if !setup.IsAlias(code) then same.(pc := Done(con))
      else if !setup.Modelled(code) then same.(pc := Done(AliasView(code, con)))
      else if code in connections then same.(pc := Done(connections[code]))
      else same.(pc := BuildOwn(con))
    case BuildOwn(con) =>
      if con.url.None? || !choice.ok then same.(pc := Failed)
      else
        var own := Connection(next, code, con.url);
        Effect(connections[code := own], next + 1, published, Done(own))
    case Done(_) => same
    case Failed => same
  }

  function Step(setup: Setup, s: System, a: Action): System {
    match a
    case Spawn(code) => s.(calls := s.calls + [Call(code, Start, false)])
    case Cancel(k) =>
      if k < |s.calls| && Cancellable(s.calls[k].pc) then
        s.(calls := s.calls[k := s.calls[k].(pc := Failed)], holder := if s.holder == Some(k) then None else s.holder)
      else s
    case Advance(k, choice) =>
      if k >= |s.calls| then s
      else
        var call := s.calls[k];
        if call.pc.Waiting? then
          if s.holder.None? then s.(holder := Some(k), calls := s.calls[k := call.(pc := Locked)]) else s
        else
          var e := CallStep(setup, s.connections, s.next, s.published, call.code, call.pc, choice);
          var call' := call.(pc := e.pc, wrote := call.wrote || e.connections != s.connections);
          System(e.connections, e.next, e.published,
                 if Holding(call.pc) && !Holding(e.pc) then None else s.holder,
                 s.calls[k := call'])
  }

  function Run(setup: Setup, s: System, actions: seq<Action>): System
    decreases |actions|
  {
    if actions == [] then s else Run(setup, Step(setup, s, actions[0]), actions[1..])
  }
}
