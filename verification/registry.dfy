/**
 * The command factory registry of models/commands/registry.go. A factory is
 * an opaque identifier; the registry maps a command tag to one.
 */
module Registry {
  import opened Wrappers

  /** Stands for a Go `CommandFactory` closure; only its identity matters here. */
  type Factory = nat

  /** The factories `init` registers: one building a sync command, one a play-card command. */
  const SyncCommandFactory: Factory := 0
  const PlayCardCommandFactory: Factory := 1

  datatype CommandRegistry = CommandRegistry(entries: map<string, Factory>)

  const EmptyRegistry: CommandRegistry := CommandRegistry(map[])

  /** `RegisterCommand`: binds the tag to the factory, replacing an earlier binding; other tags keep theirs. */
  function RegisterCommand(reg: CommandRegistry, commandType: string, factory: Factory): (r: CommandRegistry)
    ensures r.entries.Keys == reg.entries.Keys + {commandType}
    ensures r.entries[commandType] == factory
    ensures forall t | t in reg.entries && t != commandType :: r.entries[t] == reg.entries[t]
  {
    CommandRegistry(reg.entries[commandType := factory])
  }

  /** `GetCommandFactory`: the registered factory, or an error naming the tag when there is none. */
  function GetCommandFactory(reg: CommandRegistry, commandType: string): (r: Result<Factory>)
    ensures r.Success? <==> commandType in reg.entries
    ensures r.Success? ==> r.value == reg.entries[commandType]
    ensures r.Failure? ==> r.error == "no factory registered for command type: " + commandType
  {
    if commandType in reg.entries then Success(reg.entries[commandType])
    else Failure("no factory registered for command type: " + commandType)
  }

  /** A registered tag looks up to its factory with no error. */
  lemma RegisterThenGet(reg: CommandRegistry, commandType: string, factory: Factory)
    ensures GetCommandFactory(RegisterCommand(reg, commandType, factory), commandType) == Success(factory)
  {
  }

  /** Registering one tag leaves the lookup of every other tag as it was. */
  lemma RegisterLeavesOthers(reg: CommandRegistry, commandType: string, factory: Factory, other: string)
    requires other != commandType
    ensures GetCommandFactory(RegisterCommand(reg, commandType, factory), other) == GetCommandFactory(reg, other)
  {
  }

  /** Registering a tag again overwrites the earlier factory. */
  lemma ReRegisterOverwrites(reg: CommandRegistry, commandType: string, f: Factory, g: Factory)
    ensures RegisterCommand(RegisterCommand(reg, commandType, f), commandType, g) == RegisterCommand(reg, commandType, g)
  {
  }

  /** The registry after the package's `init`. */
  function InitRegistry(): CommandRegistry {
    RegisterCommand(RegisterCommand(EmptyRegistry, "SYNC_GAME_STATE", SyncCommandFactory), "PLAYCARD", PlayCardCommandFactory)
  }

  /** After `init` exactly SYNC_GAME_STATE and PLAYCARD are registered; DRAW_CARD and PLAY_CARD fail. */
  lemma InitRegistrations()
    ensures InitRegistry().entries.Keys == {"SYNC_GAME_STATE", "PLAYCARD"}
    ensures GetCommandFactory(InitRegistry(), "SYNC_GAME_STATE") == Success(SyncCommandFactory)
    ensures GetCommandFactory(InitRegistry(), "PLAYCARD") == Success(PlayCardCommandFactory)
    ensures GetCommandFactory(InitRegistry(), "DRAW_CARD").Failure?
    ensures GetCommandFactory(InitRegistry(), "PLAY_CARD").Failure?
  {
  }
}
