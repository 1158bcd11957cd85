/** `CommandHandlerDefinitions`: one handler per command, a readonly list looked up by command name. */
module CommandHandlerDefinitions {
  import opened Wrappers
  import Fixture
  import NamedList

  /** A decision model a handler builds: the name of a projection and its parameter expressions. */
  datatype DecisionModel = DecisionModel(name: string, parameters: seq<string>)

  /** A command handler definition; its constraint checks are not modelled. */
  datatype CommandHandlerDefinition = CommandHandlerDefinition(commandName: string, decisionModels: seq<DecisionModel>, successEvent: Fixture.Event)

  datatype CommandHandlerDefinitions = CommandHandlerDefinitions(items: seq<CommandHandlerDefinition>)

  function CommandNameOf(x: CommandHandlerDefinition): string {
    x.commandName
  }

  /** `none()`. */
  function None(): (r: CommandHandlerDefinitions)
    ensures |r.items| == 0
  {
    CommandHandlerDefinitions([])
  }

  /** `map($callback)`: one result per command handler, in order. */
  function Map<U>(c: CommandHandlerDefinitions, f: CommandHandlerDefinition -> U): (r: seq<U>)
    ensures |r| == |c.items|
    ensures forall k :: 0 <= k < |r| ==> r[k] == f(c.items[k])
  {
    seq(|c.items|, k requires 0 <= k < |c.items| => f(c.items[k]))
  }

  /** `commandNames()`: the command names in order. */
  function CommandNames(c: CommandHandlerDefinitions): (r: seq<string>)
    ensures |r| == |c.items|
    ensures forall k :: 0 <= k < |r| ==> r[k] == c.items[k].commandName
  {
    NamedList.Names(c.items, CommandNameOf)
  }

  /** `exists($name)`. */
  function Exists(c: CommandHandlerDefinitions, name: string): (r: bool)
    ensures r <==> exists k :: 0 <= k < |c.items| && c.items[k].commandName == name
    ensures r <==> name in CommandNames(c)
  {
    NamedList.Find(c.items, CommandNameOf, name).Some?
  }

  function UnknownMessage(name: string): string {
    "Unknown command handler \"" + name + "\""
  }

  /** `getForCommand($name)`: the first command handler with that command name. */
  function GetForCommand(c: CommandHandlerDefinitions, name: string): (r: Result<CommandHandlerDefinition, string>)
    ensures r.Ok? <==> name in CommandNames(c)
    ensures r.Ok? ==> r.value.commandName == name && r.value == c.items[NamedList.FindIndex(c.items, CommandNameOf, name)]
    ensures r.Err? ==> r.error == UnknownMessage(name)
  {
    var candidate := NamedList.Find(c.items, CommandNameOf, name);
    if candidate.Some? then Ok(candidate.value) else Err(UnknownMessage(name))
  }

  /** `onlyForCommands(...$names)`: exactly the command handlers whose command name is listed, in order. */
  function OnlyForCommands(c: CommandHandlerDefinitions, names: seq<string>): (r: CommandHandlerDefinitions)
    ensures |r.items| <= |c.items|
    ensures forall x :: x in r.items <==> x in c.items && x.commandName in names
    ensures forall name :: name in names ==> GetForCommand(r, name) == GetForCommand(c, name)
  {
    var r := CommandHandlerDefinitions(NamedList.Only(c.items, CommandNameOf, names));
    assert forall x :: x in r.items <==> x in c.items && x.commandName in names by {
      forall x ensures x in r.items <==> x in c.items && x.commandName in names {
        NamedList.OnlyContents(c.items, CommandNameOf, names, x);
      }
    }
    assert forall name :: name in names ==> GetForCommand(r, name) == GetForCommand(c, name) by {
      forall name | name in names ensures GetForCommand(r, name) == GetForCommand(c, name) {
        NamedList.FindOnly(c.items, CommandNameOf, names, name);
      }
    }
    r
  }

  /** Filtering by a list of names keeps a listed name exactly when the collection has it. */
  lemma OnlyForCommandsKeepsListed(c: CommandHandlerDefinitions, names: seq<string>, name: string)
    requires name in names
    ensures Exists(OnlyForCommands(c, names), name) == Exists(c, name)
  {
  }

  /** `with($x)`: drops every command handler with `x`'s command name and appends `x`. */
  function With(c: CommandHandlerDefinitions, x: CommandHandlerDefinition): (r: CommandHandlerDefinitions)
    ensures |r.items| > 0 && r.items[|r.items| - 1] == x
    ensures forall k :: 0 <= k < |r.items| - 1 ==> r.items[k].commandName != x.commandName
    ensures forall y :: y in c.items && y.commandName != x.commandName ==> y in r.items
    ensures forall y :: y in r.items ==> y == x || y in c.items
    ensures GetForCommand(r, x.commandName) == Ok(x)
    ensures forall name :: name in CommandNames(r) <==> name in CommandNames(c) || name == x.commandName
  {
    NamedList.WithReplaces(c.items, CommandNameOf, x);
    CommandHandlerDefinitions(NamedList.With(c.items, CommandNameOf, x))
  }

  /** `merge($other)`: the command handlers whose command name `other` does not have, then all of `other`'s. */
  function Merge(c: CommandHandlerDefinitions, other: CommandHandlerDefinitions): (r: CommandHandlerDefinitions)
    ensures |r.items| <= |c.items| + |other.items|
    ensures forall y :: y in other.items ==> y in r.items
    ensures forall y :: y in c.items && y.commandName !in CommandNames(other) ==> y in r.items
    ensures forall y :: y in r.items ==> y in other.items || (y in c.items && y.commandName !in CommandNames(other))
    ensures forall name :: GetForCommand(r, name) == if name in CommandNames(other) then GetForCommand(other, name) else GetForCommand(c, name)
  {
    var r := CommandHandlerDefinitions(NamedList.Merge(c.items, other.items, CommandNameOf));
    assert forall name :: GetForCommand(r, name) == if name in CommandNames(other) then GetForCommand(other, name) else GetForCommand(c, name) by {
      forall name ensures GetForCommand(r, name) == if name in CommandNames(other) then GetForCommand(other, name) else GetForCommand(c, name) {
        NamedList.MergeContents(c.items, other.items, CommandNameOf, name);
      }
    }
    NamedList.MergeContents(c.items, other.items, CommandNameOf, "");
    r
  }

}
