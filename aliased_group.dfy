/** The stock optional value, for Python's `Optional[...]` parameters. */
module Options {
  datatype Option<T> = None | Some(value: T)
}

/**
  AliasedGroup: a command group whose registry maps every primary name and
  every valid alias to the same command object, and whose "Commands" help
  section shows one row per primary entry, labelled with its aliases.
 */
module AliasedGroups {
  import opened Options
  import opened Aliases
  import opened OrderedDicts

  /** A command as the group sees it: an object with a name and a raw `aliases` attribute. */
  class Command {
    const name: string
    const aliases: AliasValue

    constructor (name: string, aliases: AliasValue)
      ensures this.name == name && this.aliases == aliases
    {
      this.name := name;
      this.aliases := aliases;
    }
  }

  /** A group's `commands` dictionary, from registered name to command. */
  type Registry = Dict<Command>

  /** One row of the help table: the label and the command whose short help goes beside it. */
  type Row = (string, Command)

  /** The key the base group's `add_command` registers under: `name`, or `cmd.name` when omitted. */
  function PrimaryKey(cmd: Command, name: Option<string>): string
  {
    if name.Some? then name.value else cmd.name
  }

  /** The valid aliases of a command, in declared order and untrimmed. */
  function CommandAliases(cmd: Command): seq<string>
  {
    ValidAliases(Normalize(cmd.aliases))
  }

  /** The registry after `add_command(cmd, name)`: the primary key, then each valid alias. */
  function AfterAdd(r: Registry, cmd: Command, name: Option<string>): Registry
  {
    PutAll(Put(r, PrimaryKey(cmd, name), cmd), CommandAliases(cmd), cmd)
  }

  /** Adding a command keeps the registry well formed. */
  lemma AfterAddValid(r: Registry, cmd: Command, name: Option<string>)
    requires r.Valid()
    ensures AfterAdd(r, cmd, name).Valid()
  {
    PutValid(r, PrimaryKey(cmd, name), cmd);
    PutAllValid(Put(r, PrimaryKey(cmd, name), cmd), CommandAliases(cmd), cmd);
  }

  /** One more pass of add_command's loop: a valid alias is one more insert, anything else none. */
  lemma RegisterStep(start: Registry, items: seq<Item>, i: nat, cmd: Command)
    requires i < |items|
    ensures PutAll(start, ValidAliases(items[..i + 1]), cmd)
      == if IsValidAlias(items[i]) then Put(PutAll(start, ValidAliases(items[..i]), cmd), items[i].s, cmd)
         else PutAll(start, ValidAliases(items[..i]), cmd)
  {
    var done := ValidAliases(items[..i]);
    ValidAliasesSnoc(items, i);
    if IsValidAlias(items[i]) {
      PutAllAppend(start, done, items[i].s, cmd);
      assert ValidAliases(items[..i + 1]) == done + [items[i].s];
    } else {
      assert ValidAliases(items[..i + 1]) == done;
    }
  }

  /** An entry is primary when its key is the name of the command it maps to. */
  predicate IsPrimary(r: Registry, k: string)
  {
    k in r.entries && r.entries[k].name == k
  }

  /** The label format_commands gives a primary entry. */
  function RowLabel(cmd: Command): string
  {
    Label(cmd.name, CommandAliases(cmd))
  }

  /**
    The label-keyed dictionary format_commands has built after visiting the
    first `n` registry entries.
   */
  function LabelTable(r: Registry, n: nat): (t: Dict<Command>)
    requires r.Valid() && n <= |r.keys|
    ensures t.Valid()
    decreases n
  {
    if n == 0 then Empty()
    else
      var t := LabelTable(r, n - 1);
      var k := r.keys[n - 1];
      var cmd := r.entries[k];
      if k == cmd.name then PutValid(t, RowLabel(cmd), cmd); Put(t, RowLabel(cmd), cmd) else t
  }

  /** Visiting one more entry adds its label exactly when the entry is primary. */
  lemma LabelTableStep(r: Registry, i: nat)
    requires r.Valid() && i < |r.keys|
    ensures LabelTable(r, i + 1) == if IsPrimary(r, r.keys[i])
      then Put(LabelTable(r, i), RowLabel(r.entries[r.keys[i]]), r.entries[r.keys[i]])
      else LabelTable(r, i)
  {
  }

  /**
    Every label in the table belongs to a primary entry among the first `n`
    keys (none of the later keys) and is that entry's label.
   */
  lemma {:induction false} LabelTableSound(r: Registry, n: nat)
    requires r.Valid() && n <= |r.keys|
    ensures forall l :: l in LabelTable(r, n).entries ==>
      && IsPrimary(r, LabelTable(r, n).entries[l].name)
      && r.entries[LabelTable(r, n).entries[l].name] == LabelTable(r, n).entries[l]
      && l == RowLabel(LabelTable(r, n).entries[l])
      && forall j :: n <= j < |r.keys| ==> r.keys[j] != LabelTable(r, n).entries[l].name
    decreases n
  {
    if n > 0 {
      LabelTableSound(r, n - 1);
    }
  }

  /** Every primary entry among the first `n` keys has its label in the table. */
  lemma {:induction false} LabelTableComplete(r: Registry, n: nat)
    requires r.Valid() && n <= |r.keys|
    ensures forall j :: 0 <= j < n && IsPrimary(r, r.keys[j]) ==> RowLabel(r.entries[r.keys[j]]) in LabelTable(r, n).entries
    decreases n
  {
    if n > 0 {
      LabelTableComplete(r, n - 1);
    }
  }

  /** What format_commands hands to the formatter: no section, or a "Commands" section of rows. */
  function HelpSection(r: Registry): Option<seq<Row>>
    requires r.Valid()
  {
    var rows := Items(LabelTable(r, |r.keys|));
    if rows == [] then None else Some(rows)
  }

  class AliasedGroup {
    const name: string
    /** The group's own `aliases` keyword argument; it is stored and not used further here. */
    const aliases: AliasValue
    /** The registry `self.commands`: its keys in insertion order, and what each maps to. */
    var keys: seq<string>
    var commands: map<string, Command>

    function Current(): Registry
      reads this
    {
      Dict(keys, commands)
    }

    ghost predicate Valid()
      reads this
    {
      Current().Valid()
    }

    /** `__init__`: the `aliases` keyword argument is stored, `[]` when it is not given. */
    constructor (name: string, aliases: Option<AliasValue>)
      ensures Valid() && Current() == Empty()
      ensures this.name == name
      ensures this.aliases == if aliases.Some? then aliases.value else AliasSeq([])
    {
      this.name := name;
      this.aliases := if aliases.Some? then aliases.value else AliasSeq([]);
      keys := [];
      commands := map[];
    }

    /** The base group's `add_command`, as a keyed insert into the registry. */
    method BaseAddCommand(cmd: Command, name: Option<string>)
      requires Valid()
      modifies this
      ensures Valid()
      ensures Current() == Put(old(Current()), PrimaryKey(cmd, name), cmd)
    {
      var key := if name.Some? then name.value else cmd.name;
      PutValid(Current(), key, cmd);
      if key !in commands {
        keys := keys + [key];
      }
      commands := commands[key := cmd];
    }

    /** `add_command`: register `cmd` under its primary key, then under each valid alias. */
    method AddCommand(cmd: Command, name: Option<string>)
      requires Valid()
      modifies this
      ensures Valid()
      ensures Current() == AfterAdd(old(Current()), cmd, name)
    {
      var aliases := Normalize(cmd.aliases);
      BaseAddCommand(cmd, name);
      ghost var start := Current();
      for i := 0 to |aliases|
        invariant Valid()
        invariant Current() == PutAll(start, ValidAliases(aliases[..i]), cmd)
      {
        var alias := aliases[i];
        RegisterStep(start, aliases, i, cmd);
        if alias.StrItem? && Strip(alias.s) != [] {
          BaseAddCommand(cmd, Some(alias.s));
        }
      }
      assert aliases[..|aliases|] == aliases;
    }

    /** `format_commands`: the rows for the primary entries, and whether a section is written. */
    method FormatCommands() returns (section: Option<seq<Row>>)
      requires Valid()
      ensures section == HelpSection(Current())
    {
      var labelled: Dict<Command> := Empty();
      for i := 0 to |keys|
        invariant labelled == LabelTable(Current(), i)
      {
        var key := keys[i];
        var cmd := commands[key];
        LabelTableStep(Current(), i);
        if key == cmd.name {
          var valid := ValidAliases(Normalize(cmd.aliases));
          var shown := key;
          if valid != [] {
            shown := key + " (" + Join(", ", valid) + ")";
          }
          assert shown == Label(cmd.name, valid);
          labelled := Put(labelled, shown, cmd);
        }
      }
      var rows := Items(labelled);
      if rows != [] {
        section := Some(rows);
      } else {
        section := None;
      }
    }
  }
}
