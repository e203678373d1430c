/**
 * Chat-command registration (`Ktisis/Services/CommandService.cs`): a set of registered names that
 * lets each name reach the game's command manager once, a fluent factory that gathers a command's
 * aliases and help message, and the help text built from them.
 *
 * The command manager is replaced by the log of calls made to it. Handlers are named by an id.
 */
module Commands {
  import opened Common

  /** A command handler, named by an id. */
  type HandlerId = nat

  /** The handler of `/ktisis` (`OnMainCommand`). */
  const MainCommand: HandlerId := 0

  /** Dalamud's `CommandInfo`: its handler, whether it is listed in help, and its help message. */
  datatype CommandInfo = CommandInfo(handler: HandlerId, showInHelp: bool, helpMessage: string)

  /** A call made to the command manager. */
  datatype ManagerCall = AddHandler(name: string, info: CommandInfo) | RemoveHandler(name: string)

  /** The service's registered names and the calls it has made to the command manager. */
  datatype Registry = Registry(register: seq<string>, calls: seq<ManagerCall>)

  /** The names handed to `AddHandler`, in call order. */
  function AddedNames(calls: seq<ManagerCall>): seq<string>
  {
    if calls == [] then []
    else
      var last := calls[|calls| - 1];
      AddedNames(calls[..|calls| - 1]) + (if last.AddHandler? then [last.name] else [])
  }

  /**
   * The registry is consistent: a name is registered at most once, and the names handed to the
   * command manager are exactly the registered ones, in the order they were registered.
   */
  predicate RegistryValid(st: Registry)
  {
    NoDups(st.register) && AddedNames(st.calls) == st.register
  }

  // ---------------------------------------------------------------------------------------------
  // `Add` and `Dispose`

  /** The registry after `Add(name, info)`: a name already in `_register` is ignored. */
  function WithCommand(st: Registry, name: string, info: CommandInfo): Registry
  {
    if name in st.register then st
    else Registry(st.register + [name], st.calls + [AddHandler(name, info)])
  }

  /** `Add` keeps the registry consistent: no name ever reaches the command manager twice. */
  lemma AddKeepsValid(st: Registry, name: string, info: CommandInfo)
    requires RegistryValid(st)
    ensures RegistryValid(WithCommand(st, name, info))
    ensures name in WithCommand(st, name, info).register
    ensures forall n :: n in WithCommand(st, name, info).register <==> n in st.register || n == name
  {
    if name !in st.register {
      var calls := st.calls + [AddHandler(name, info)];
      assert calls[..|calls| - 1] == st.calls;
    }
  }

  /** A second `Add` of the same name changes nothing, whatever its command info. */
  lemma AddTwice(st: Registry, name: string, first: CommandInfo, second: CommandInfo)
    ensures WithCommand(WithCommand(st, name, first), name, second) == WithCommand(st, name, first)
  {
  }

  /** The calls `Dispose` makes: one `RemoveHandler` per registered name, in register order. */
  function Removals(register: seq<string>): (r: seq<ManagerCall>)
    ensures |r| == |register|
    ensures forall k :: 0 <= k < |r| ==> r[k] == RemoveHandler(register[k])
  {
    if register == [] then [] else [RemoveHandler(register[0])] + Removals(register[1..])
  }

  /**
   * `Dispose` removes every name that was handed to the command manager, each exactly once, and
   * no other name.
   */
  lemma DisposeRemovesEachOnce(st: Registry)
    requires RegistryValid(st)
    ensures NoDups(Removals(st.register))
    ensures forall n :: RemoveHandler(n) in Removals(st.register) <==> n in AddedNames(st.calls)
  {
    var r := Removals(st.register);
    forall n | RemoveHandler(n) in r
      ensures n in st.register
    {
      var k :| 0 <= k < |r| && r[k] == RemoveHandler(n);
    }
    forall n | n in st.register
      ensures RemoveHandler(n) in r
    {
      var k :| 0 <= k < |st.register| && st.register[k] == n;
      assert r[k] == RemoveHandler(n);
    }
  }

  // ---------------------------------------------------------------------------------------------
  // `CommandFactory.Create` and the help text

  /** The command info of an alias: the same handler, not listed in help, no message. */
  function AliasInfo(handler: HandlerId): CommandInfo
  {
    CommandInfo(handler, false, "")
  }

  /** The registry after `CreateAlias` for each alias in turn. */
  function WithAliases(st: Registry, alias: seq<string>, handler: HandlerId): Registry
  {
    if alias == [] then st
    else WithCommand(WithAliases(st, alias[..|alias| - 1], handler), alias[|alias| - 1], AliasInfo(handler))
  }

  /** The registry after `Create`: the main name first, then every alias. */
  function Created(st: Registry, name: string, main: CommandInfo, alias: seq<string>): Registry
  {
    WithAliases(WithCommand(st, name, main), alias, main.handler)
  }

  /** The `AddHandler` calls of a list of aliases. */
  function AliasCalls(alias: seq<string>, handler: HandlerId): (r: seq<ManagerCall>)
    ensures |r| == |alias|
    ensures forall k :: 0 <= k < |r| ==> r[k] == AddHandler(alias[k], AliasInfo(handler))
  {
    if alias == [] then [] else AliasCalls(alias[..|alias| - 1], handler) + [AddHandler(alias[|alias| - 1], AliasInfo(handler))]
  }

  /** Adding fresh aliases in turn registers them in order, each with its alias info. */
  lemma {:induction false} AliasesInOrder(st: Registry, alias: seq<string>, handler: HandlerId)
    requires NoDups(alias) && forall a :: a in alias ==> a !in st.register
    ensures WithAliases(st, alias, handler) ==
              Registry(st.register + alias, st.calls + AliasCalls(alias, handler))
  {
    if alias != [] {
      var init := alias[..|alias| - 1];
      NoDupsInit(alias);
      AliasesInOrder(st, init, handler);
      assert st.register + init + [alias[|alias| - 1]] == st.register + alias;
    }
  }

  /**
   * With a fresh main name and fresh, distinct aliases, `Create` hands the main command to the
   * command manager first, then each alias in insertion order, the aliases hidden from help.
   */
  lemma CreateOrder(st: Registry, name: string, main: CommandInfo, alias: seq<string>)
    requires NoDups([name] + alias) && forall a :: a in [name] + alias ==> a !in st.register
    ensures Created(st, name, main, alias) ==
              Registry(st.register + [name] + alias, st.calls + [AddHandler(name, main)] + AliasCalls(alias, main.handler))
  {
    var after := WithCommand(st, name, main);
    assert NoDups(alias) by {
      forall i, j | 0 <= i < j < |alias| ensures alias[i] != alias[j] {
        assert ([name] + alias)[i + 1] == alias[i] && ([name] + alias)[j + 1] == alias[j];
      }
    }
    forall a | a in alias ensures a !in after.register {
      assert a in [name] + alias;
      var k :| 0 <= k < |alias| && alias[k] == a;
      assert ([name] + alias)[0] == name && ([name] + alias)[k + 1] == a;
    }
    AliasesInOrder(after, alias, main.handler);
    assert after.register + alias == st.register + [name] + alias;
  }

  /** `Create` keeps the registry consistent, whatever names it is given. */
  lemma {:induction false} CreatedValid(st: Registry, name: string, main: CommandInfo, alias: seq<string>)
    requires RegistryValid(st)
    ensures RegistryValid(Created(st, name, main, alias))
    ensures forall n :: n in Created(st, name, main, alias).register <==> n in st.register || n == name || n in alias
  {
    AddKeepsValid(st, name, main);
    AliasesValid(WithCommand(st, name, main), alias, main.handler);
  }

  /** Adding aliases keeps the registry consistent and registers exactly the new names. */
  lemma {:induction false} AliasesValid(st: Registry, alias: seq<string>, handler: HandlerId)
    requires RegistryValid(st)
    ensures RegistryValid(WithAliases(st, alias, handler))
    ensures forall n :: n in WithAliases(st, alias, handler).register <==> n in st.register || n in alias
  {
    if alias != [] {
      var init := alias[..|alias| - 1];
      AliasesValid(st, init, handler);
      AddKeepsValid(WithAliases(st, init, handler), alias[|alias| - 1], AliasInfo(handler));
      assert forall n :: n in alias <==> n in init || n == alias[|alias| - 1];
    }
  }

  /** The aliases suffix of the help text: a newline, the padding, and the list of aliases. */
  function AliasSuffix(name: string, alias: seq<string>): string
  {
    "\n" + Repeat(' ', |name| * 2) + " (Aliases: " + Join(alias, ", ") + ")"
  }

  /**
   * `BuildCommandInfo`'s help text: the message, followed by the aliases suffix when the message
   * is not empty and there are aliases.
   */
  function HelpText(message: string, name: string, alias: seq<string>): string
  {
    if message != "" && |alias| > 0 then message + AliasSuffix(name, alias) else message
  }

  /** The help text is the message unchanged exactly when the message is empty or there are no aliases. */
  lemma HelpTextUnchanged(message: string, name: string, alias: seq<string>)
    ensures HelpText(message, name, alias) == message <==> message == "" || alias == []
  {
    if message != "" && alias != [] {
      assert |HelpText(message, name, alias)| > |message|;
    }
  }

  /**
   * The layout of an extended help text: the message, a newline, two spaces per character of the
   * command name, then " (Aliases: " and, last, a closing parenthesis.
   */
  lemma HelpTextLayout(message: string, name: string, alias: seq<string>)
    requires message != "" && alias != []
    ensures var t := HelpText(message, name, alias);
            var open := |message| + 1 + 2 * |name|;
            |t| > open + 11 &&
            t[..|message|] == message && t[|message|] == '\n' &&
            (forall i :: |message| < i < open ==> t[i] == ' ') &&
            t[open..open + 11] == " (Aliases: " &&
            t[|t| - 1] == ')'
  {
    var t := HelpText(message, name, alias);
    var pad := |message| + 1;
    var spaces := Repeat(' ', |name| * 2);
    var open := pad + 2 * |name|;
    assert t == message + "\n" + spaces + " (Aliases: " + Join(alias, ", ") + ")";
    forall i | pad <= i < open ensures t[i] == ' ' {
      assert t[i] == spaces[i - pad];
    }
    assert t[open..open + 11] == " (Aliases: ";
  }

  /** Each alias occurs in the extended help text after " (Aliases: ". */
  lemma HelpTextListsAlias(message: string, name: string, alias: seq<string>, k: nat) returns (off: nat)
    requires message != "" && k < |alias|
    ensures |message| + 1 + 2 * |name| + 11 <= off
    ensures off + |alias[k]| < |HelpText(message, name, alias)|
    ensures HelpText(message, name, alias)[off..off + |alias[k]|] == alias[k]
  {
    var prefix := message + "\n" + Repeat(' ', |name| * 2) + " (Aliases: ";
    var joined := Join(alias, ", ");
    var t := HelpText(message, name, alias);
    assert t == prefix + (joined + ")");
    var at := JoinContains(alias, ", ", k);
    off := |prefix| + at;
    SliceOfAppend(prefix, joined + ")", at, at + |alias[k]|);
    assert (joined + ")")[at..at + |alias[k]|] == joined[at..at + |alias[k]|];
  }

  /** A slice of the second part of a concatenation. */
  lemma SliceOfAppend<T>(a: seq<T>, b: seq<T>, i: nat, j: nat)
    requires i <= j <= |b|
    ensures (a + b)[|a| + i..|a| + j] == b[i..j]
  {
  }

  /** Every element of a list occurs in the joined string. */
  lemma {:induction false} JoinContains(xs: seq<string>, sep: string, k: nat) returns (off: nat)
    requires k < |xs|
    ensures off + |xs[k]| <= |Join(xs, sep)| && Join(xs, sep)[off..off + |xs[k]|] == xs[k]
  {
    if |xs| == 1 {
      off := 0;
    } else if k == 0 {
      off := 0;
      assert Join(xs, sep) == xs[0] + (sep + Join(xs[1..], sep));
    } else {
      var rest := JoinContains(xs[1..], sep, k - 1);
      off := |xs[0] + sep| + rest;
      assert Join(xs, sep) == (xs[0] + sep) + Join(xs[1..], sep);
      SliceOfAppend(xs[0] + sep, Join(xs[1..], sep), rest, rest + |xs[k]|);
    }
  }

  // ---------------------------------------------------------------------------------------------
  // The service and the factory

  class CommandService {
    /** `_register`, in insertion order. */
    var register: seq<string>
    /** The calls made to the command manager. */
    var calls: seq<ManagerCall>

    function State(): Registry
      reads this
    {
      Registry(register, calls)
    }

    constructor ()
      ensures State() == Registry([], [])
    {
      register := [];
      calls := [];
    }

    /** `RegisterHandlers`: `/ktisis` with its help message and no aliases. */
    method RegisterHandlers()
      modifies this
      ensures State() == WithCommand(old(State()), "/ktisis", CommandInfo(MainCommand, true, "Toggle the main Ktisis window."))
    {
      var factory := new CommandFactory(this, "/ktisis", MainCommand);
      factory := factory.SetMessage("Toggle the main Ktisis window.");
      factory.Create();
    }

    /** `Add`: the name reaches the command manager only if it was not registered before. */
    method Add(name: string, info: CommandInfo)
      modifies this
      ensures State() == WithCommand(old(State()), name, info)
    {
      if name !in register {
        register := register + [name];
        calls := calls + [AddHandler(name, info)];
      }
    }

    /** `Dispose`: every registered name is removed from the command manager. */
    method Dispose()
      modifies this`calls
      ensures State() == Registry(register, old(calls) + Removals(register))
    {
      var i := 0;
      while i < |register|
        invariant 0 <= i <= |register|
        invariant calls == old(calls) + Removals(register[..i])
      {
        assert register[..i + 1] == register[..i] + [register[i]];
        assert Removals(register[..i + 1]) == Removals(register[..i]) + [RemoveHandler(register[i])];
        calls := calls + [RemoveHandler(register[i])];
        i := i + 1;
      }
      assert register[..i] == register;
    }
  }

  class CommandFactory {
    const service: CommandService
    const name: string
    const handler: HandlerId
    var alias: seq<string>
    var showInHelp: bool
    var helpMessage: string

    constructor (service: CommandService, name: string, handler: HandlerId)
      ensures this.service == service && this.name == name && this.handler == handler
      ensures alias == [] && !showInHelp && helpMessage == ""
    {
      this.service := service;
      this.name := name;
      this.handler := handler;
      alias := [];
      showInHelp := false;
      helpMessage := "";
    }

    /** `SetMessage`: the command is listed in help with this message. */
    method SetMessage(message: string) returns (r: CommandFactory)
      modifies this`showInHelp, this`helpMessage
      ensures r == this && showInHelp && helpMessage == message
    {
      showInHelp := true;
      helpMessage := message;
      return this;
    }

    /** `AddAlias`: the alias is appended. */
    method AddAlias(a: string) returns (r: CommandFactory)
      modifies this`alias
      ensures r == this && alias == old(alias) + [a]
    {
      alias := alias + [a];
      return this;
    }

    /** `AddAliases`: the aliases are appended in the order given. */
    method AddAliases(aliases: seq<string>) returns (r: CommandFactory)
      modifies this`alias
      ensures r == this && alias == old(alias) + aliases
    {
      alias := alias + aliases;
      return this;
    }

    /** `BuildCommandInfo`: listed in help as set, with the help text. */
    function BuildCommandInfo(): (info: CommandInfo)
      reads this
    {
      CommandInfo(handler, showInHelp, HelpText(helpMessage, name, alias))
    }

    /** `Create`: the main command, then each alias in turn. */
    method Create()
      modifies service
      ensures service.State() == Created(old(service.State()), name, BuildCommandInfo(), alias)
    {
      service.Add(name, BuildCommandInfo());
      ghost var start := service.State();
      var i := 0;
      while i < |alias|
        invariant 0 <= i <= |alias|
        invariant service.State() == WithAliases(start, alias[..i], handler)
      {
        assert alias[..i + 1][..i] == alias[..i];
        CreateAlias(alias[i]);
        i := i + 1;
      }
      assert alias[..i] == alias;
    }

    /** `CreateAlias`: the alias with the same handler, hidden from help. */
    method CreateAlias(a: string)
      modifies service
      ensures service.State() == WithCommand(old(service.State()), a, AliasInfo(handler))
    {
      service.Add(a, CommandInfo(handler, false, ""));
    }
  }
}
