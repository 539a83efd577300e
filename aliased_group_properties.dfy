/**
  What AliasedGroup promises about its registry and its help section,
  proved about the specification functions that its methods are tied to.
 */
module AliasedGroupProperties {
  import opened Options
  import opened Aliases
  import opened OrderedDicts
  import opened AliasedGroups

  // ---------------------------------------------------------------------------
  // Registration
  // ---------------------------------------------------------------------------

  /**
    After `add_command(cmd, name)` the primary key and every valid alias are
    registered, and looking any of them up gives the identical command object.
   */
  lemma AddRegistersUnderEveryName(r: Registry, cmd: Command, name: Option<string>)
    requires r.Valid()
    ensures var r' := AfterAdd(r, cmd, name);
      && PrimaryKey(cmd, name) in r'.entries && r'.entries[PrimaryKey(cmd, name)] == cmd
      && forall a :: a in CommandAliases(cmd) ==>
           a in r'.entries && r'.entries[a] == r'.entries[PrimaryKey(cmd, name)]
  {
    PutAllEntries(Put(r, PrimaryKey(cmd, name), cmd), CommandAliases(cmd), cmd);
  }

  /**
    `add_command` adds exactly the primary key and the valid aliases as keys,
    and every other entry keeps its presence and its command.
   */
  lemma AddChangesOnlyItsNames(r: Registry, cmd: Command, name: Option<string>)
    requires r.Valid()
    ensures var r' := AfterAdd(r, cmd, name);
      && (forall k :: k in r'.entries <==> k in r.entries || k == PrimaryKey(cmd, name) || k in CommandAliases(cmd))
      && forall k :: k != PrimaryKey(cmd, name) && k !in CommandAliases(cmd) ==>
           (k in r'.entries <==> k in r.entries) && (k in r.entries ==> r'.entries[k] == r.entries[k])
  {
    PutAllEntries(Put(r, PrimaryKey(cmd, name), cmd), CommandAliases(cmd), cmd);
  }

  /** Registration never reorders the registry: the old keys stay a prefix of the new ones. */
  lemma AddKeepsOrder(r: Registry, cmd: Command, name: Option<string>)
    requires r.Valid()
    ensures r.keys <= AfterAdd(r, cmd, name).keys
  {
  }

  /**
    An alias entry becomes a new key exactly when it is a string that is not
    all whitespace, and the key is that string as written, not its trimmed form.
   */
  lemma AddRegistersUntrimmedStrings(r: Registry, cmd: Command, name: Option<string>)
    requires r.Valid()
    ensures var r' := AfterAdd(r, cmd, name);
      && (forall a :: StrItem(a) in Normalize(cmd.aliases) && !IsBlank(a) ==>
            a in r'.entries && r'.entries[a] == cmd)
      && (forall a :: a in r'.entries && a !in r.entries && a != PrimaryKey(cmd, name) ==>
            StrItem(a) in Normalize(cmd.aliases) && !IsBlank(a))
  {
    PutAllEntries(Put(r, PrimaryKey(cmd, name), cmd), CommandAliases(cmd), cmd);
    ValidAliasesMembers(Normalize(cmd.aliases));
    forall a | StrItem(a) in Normalize(cmd.aliases)
      ensures IsValidAlias(StrItem(a)) <==> !IsBlank(a)
    {
      ValidAliasIffNotBlank(StrItem(a));
    }
  }

  /**
    Each name `add_command` registers now maps to `cmd`, so it is a primary
    entry exactly when it is `cmd.name`. An explicit `name` other than
    `cmd.name` is therefore not primary, and an alias equal to another
    command's name takes that entry over, so the other command loses the row
    it had there. `cmd` stays visible only if it is registered under its own
    name, for instance through an alias equal to `cmd.name`.
   */
  lemma AddedNamesPrimaryIffOwnName(r: Registry, cmd: Command, name: Option<string>)
    requires r.Valid()
    ensures var r' := AfterAdd(r, cmd, name);
      forall k :: k == PrimaryKey(cmd, name) || k in CommandAliases(cmd) ==>
        k in r'.entries && r'.entries[k] == cmd && (IsPrimary(r', k) <==> k == cmd.name)
  {
    PutAllEntries(Put(r, PrimaryKey(cmd, name), cmd), CommandAliases(cmd), cmd);
  }

  /** A command with one valid alias, added to an empty group, is registered under both names. */
  lemma AddOneAliasToEmpty(cmd: Command, primary: string, alias: string)
    requires primary != alias && CommandAliases(cmd) == [alias]
    ensures var r := AfterAdd(Empty(), cmd, Some(primary));
      && r.keys == [primary, alias]
      && (forall k :: k in r.entries <==> k == primary || k == alias)
      && forall k :: k in r.entries ==> r.entries[k] == cmd
  {
    var p := Put(Empty(), primary, cmd);
    assert [alias][1..] == [];
    assert PutAll(p, [alias], cmd) == PutAll(Put(p, alias, cmd), [], cmd);
  }

  /** A command with two valid aliases, added to an empty group, is registered under all three names. */
  lemma AddTwoAliasesToEmpty(cmd: Command, primary: string, a1: string, a2: string)
    requires primary != a1 && primary != a2 && a1 != a2 && CommandAliases(cmd) == [a1, a2]
    ensures var r := AfterAdd(Empty(), cmd, Some(primary));
      && r.keys == [primary, a1, a2]
      && (forall k :: k in r.entries <==> k == primary || k == a1 || k == a2)
      && forall k :: k in r.entries ==> r.entries[k] == cmd
  {
    PutAllPair(Put(Empty(), primary, cmd), a1, a2, cmd);
    PutThreeFresh(primary, a1, a2, cmd);
  }

  /** A command without valid aliases is registered under its primary key alone. */
  lemma AddWithoutAliases(r: Registry, cmd: Command, name: Option<string>)
    requires CommandAliases(cmd) == []
    ensures AfterAdd(r, cmd, name) == Put(r, PrimaryKey(cmd, name), cmd)
  {
  }

  /** The valid aliases of `["d", "", "  ", <not a string>, "dep"]` are `["d", "dep"]`. */
  lemma SkipsBlankEntries(items: seq<Item>)
    requires items == [StrItem("d"), StrItem(""), StrItem("  "), NonStrItem, StrItem("dep")]
    ensures ValidAliases(items) == ["d", "dep"]
  {
    VisibleIsValid("d");
    VisibleIsValid("dep");
    BlankIsInvalid("");
    BlankIsInvalid("  ");
    var t4 := [StrItem("dep")];
    ValidAliasesCons(StrItem("dep"), []);
    var t3 := [NonStrItem] + t4;
    ValidAliasesCons(NonStrItem, t4);
    var t2 := [StrItem("  ")] + t3;
    ValidAliasesCons(StrItem("  "), t3);
    var t1 := [StrItem("")] + t2;
    ValidAliasesCons(StrItem(""), t2);
    ValidAliasesCons(StrItem("d"), t1);
    assert items == [StrItem("d")] + t1;
  }

  /** Blank and non-string entries are skipped: `["d", "", "  ", 3, "dep"]` adds only `d` and `dep`. */
  lemma AddSkipsBlankAliases(cmd: Command)
    requires cmd.name == "deploy"
    requires cmd.aliases == AliasSeq([StrItem("d"), StrItem(""), StrItem("  "), NonStrItem, StrItem("dep")])
    ensures AfterAdd(Empty(), cmd, None).keys == ["deploy", "d", "dep"]
  {
    SkipsBlankEntries(Normalize(cmd.aliases));
    AddTwoAliasesToEmpty(cmd, "deploy", "d", "dep");
  }

  /** An alias with surrounding spaces is registered with them: `" d "` is a key and `"d"` is not. */
  lemma AddKeepsSurroundingSpaces(cmd: Command)
    requires cmd.name == "deploy"
    requires cmd.aliases == AliasSeq([StrItem(" d ")])
    ensures AfterAdd(Empty(), cmd, None).keys == ["deploy", " d "]
    ensures "d" !in AfterAdd(Empty(), cmd, None).entries
  {
    ValidAliasIffNotBlank(StrItem(" d "));
    assert !IsWhitespace(" d "[1]);
    ValidAliasesCons(StrItem(" d "), []);
    assert Normalize(cmd.aliases) == [StrItem(" d ")] + [];
    AddOneAliasToEmpty(cmd, "deploy", " d ");
  }

  /** A bare string alias registers that one string, not its characters. */
  lemma AddBareStringAlias(cmd: Command)
    requires cmd.name == "deploy"
    requires cmd.aliases == AliasStr("dep")
    ensures AfterAdd(Empty(), cmd, None).keys == ["deploy", "dep"]
  {
    BareStringIsOneAlias("dep");
    assert !IsWhitespace("dep"[0]);
    AddOneAliasToEmpty(cmd, "deploy", "dep");
  }

  // ---------------------------------------------------------------------------
  // Help rows
  // ---------------------------------------------------------------------------

  /** The labels of a row list, in order. */
  function Labels(rows: seq<Row>): (ls: seq<string>)
    ensures |ls| == |rows| && forall i :: 0 <= i < |rows| ==> ls[i] == rows[i].0
  {
    seq(|rows|, i requires 0 <= i < |rows| => rows[i].0)
  }

  /**
    Every help row comes from a primary entry: its command is registered under
    its own name, and its label is that name with the command's valid aliases.
   */
  lemma HelpRowsArePrimary(r: Registry)
    requires r.Valid()
    ensures HelpSection(r).Some? ==> forall i :: 0 <= i < |HelpSection(r).value| ==>
      var (shown, cmd) := HelpSection(r).value[i];
      IsPrimary(r, cmd.name) && r.entries[cmd.name] == cmd && shown == RowLabel(cmd)
  {
    var t := LabelTable(r, |r.keys|);
    LabelTableSound(r, |r.keys|);
    forall i | 0 <= i < |Items(t)|
      ensures t.keys[i] in t.entries
    {
    }
  }

  /** Every primary entry's label appears in the help section, and no label appears twice. */
  lemma HelpCoversEveryPrimary(r: Registry)
    requires r.Valid()
    ensures forall k :: IsPrimary(r, k) ==>
      HelpSection(r).Some? && RowLabel(r.entries[k]) in Labels(HelpSection(r).value)
    ensures HelpSection(r).Some? ==> var ls := Labels(HelpSection(r).value);
      forall i, j :: 0 <= i < |ls| && 0 <= j < |ls| && i != j ==> ls[i] != ls[j]
  {
    var t := LabelTable(r, |r.keys|);
    LabelTableComplete(r, |r.keys|);
    var rows := Items(t);
    forall k | IsPrimary(r, k)
      ensures HelpSection(r).Some? && RowLabel(r.entries[k]) in Labels(HelpSection(r).value)
    {
      var j :| 0 <= j < |r.keys| && r.keys[j] == k;
      var l := RowLabel(r.entries[k]);
      assert l in t.entries;
      var m :| 0 <= m < |t.keys| && t.keys[m] == l;
      assert rows[m].0 == l;
      assert Labels(rows)[m] == l;
    }
  }

  /** No "Commands" section is written exactly when no entry is primary (an empty group included). */
  lemma HelpSectionOmittedIff(r: Registry)
    requires r.Valid()
    ensures HelpSection(r).None? <==> forall k :: k in r.entries ==> !IsPrimary(r, k)
  {
    var t := LabelTable(r, |r.keys|);
    ItemsEmptyIffNoEntries(t);
    if HelpSection(r).None? {
      LabelTableComplete(r, |r.keys|);
      forall k | k in r.entries
        ensures !IsPrimary(r, k)
      {
        var j :| 0 <= j < |r.keys| && r.keys[j] == k;
      }
    } else {
      LabelTableSound(r, |r.keys|);
      var l :| l in t.entries;
      assert IsPrimary(r, t.entries[l].name);
    }
  }

  /** The primary entries of the first `n` keys as rows, in registry order. */
  function PrimaryRows(r: Registry, n: nat): seq<Row>
    requires r.Valid() && n <= |r.keys|
  {
    if n == 0 then []
    else
      var k := r.keys[n - 1];
      PrimaryRows(r, n - 1) + if IsPrimary(r, k) then [(RowLabel(r.entries[k]), r.entries[k])] else []
  }

  /** No two primary entries share a label. */
  ghost predicate PrimaryLabelsDistinct(r: Registry)
  {
    forall k1, k2 :: IsPrimary(r, k1) && IsPrimary(r, k2) && k1 != k2
      ==> RowLabel(r.entries[k1]) != RowLabel(r.entries[k2])
  }

  /** Under distinct labels, a primary entry's label is not yet in the table of the keys before it. */
  lemma LabelIsFresh(r: Registry, n: nat)
    requires r.Valid() && 0 < n <= |r.keys| && PrimaryLabelsDistinct(r) && IsPrimary(r, r.keys[n - 1])
    ensures RowLabel(r.entries[r.keys[n - 1]]) !in LabelTable(r, n - 1).entries
  {
    var t := LabelTable(r, n - 1);
    var l := RowLabel(r.entries[r.keys[n - 1]]);
    LabelTableSound(r, n - 1);
    forall l' | l' in t.entries
      ensures l' != l
    {
      var other := t.entries[l'];
      assert r.keys[n - 1] != other.name;
    }
  }

  /** Under distinct labels, the label table of the first `n` keys lists exactly their primary rows, in order. */
  lemma {:induction false} LabelTableItems(r: Registry, n: nat)
    requires r.Valid() && n <= |r.keys| && PrimaryLabelsDistinct(r)
    ensures Items(LabelTable(r, n)) == PrimaryRows(r, n)
  {
    if n > 0 {
      LabelTableItems(r, n - 1);
      var k := r.keys[n - 1];
      if IsPrimary(r, k) {
        LabelIsFresh(r, n);
        ItemsPutFresh(LabelTable(r, n - 1), RowLabel(r.entries[k]), r.entries[k]);
      }
    }
  }

  /**
    When no two primary entries share a label, the help rows are exactly the
    primary entries in registry order, each with its label; alias entries add none.
   */
  lemma HelpRowsInRegistryOrder(r: Registry)
    requires r.Valid() && PrimaryLabelsDistinct(r)
    ensures HelpSection(r) == if PrimaryRows(r, |r.keys|) == [] then None else Some(PrimaryRows(r, |r.keys|))
  {
    LabelTableItems(r, |r.keys|);
  }

  /** `"deploy"` with aliases `["d", "dep"]` has the valid aliases `d`, `dep` and the label `deploy (d, dep)`. */
  lemma DeployLabel(deploy: Command)
    requires deploy.name == "deploy" && deploy.aliases == AliasSeq([StrItem("d"), StrItem("dep")])
    ensures CommandAliases(deploy) == ["d", "dep"]
    ensures RowLabel(deploy) == "deploy (d, dep)"
  {
    assert ValidAliases([StrItem("dep")]) == ["dep"] by {
      VisibleIsValid("dep");
      ValidAliasesCons(StrItem("dep"), []);
    }
    assert CommandAliases(deploy) == ["d", "dep"] by {
      VisibleIsValid("d");
      ValidAliasesCons(StrItem("d"), [StrItem("dep")]);
      assert Normalize(deploy.aliases) == [StrItem("d")] + [StrItem("dep")];
    }
    assert Join(", ", ["d", "dep"]) == "d, dep";
  }

  /** Adding a command with two aliases and then one without gives four keys, in that order. */
  lemma TwoCommandsRegistry(c1: Command, a1: string, a2: string, c2: Command)
    requires c1.name != a1 && c1.name != a2 && a1 != a2
    requires c2.name != c1.name && c2.name != a1 && c2.name != a2
    requires CommandAliases(c1) == [a1, a2] && CommandAliases(c2) == []
    ensures var r := AfterAdd(AfterAdd(Empty(), c1, None), c2, None);
      && r.Valid()
      && r.keys == [c1.name, a1, a2, c2.name]
      && r.entries[c1.name] == c1 && r.entries[a1] == c1 && r.entries[a2] == c1 && r.entries[c2.name] == c2
  {
    AddTwoAliasesToEmpty(c1, c1.name, a1, a2);
    var r1 := AfterAdd(Empty(), c1, None);
    AddWithoutAliases(r1, c2, None);
    assert c2.name !in r1.entries;
    AfterAddValid(Empty(), c1, None);
    AfterAddValid(r1, c2, None);
  }

  /** The label table of such a registry, built key by key: the alias keys add nothing. */
  lemma TwoCommandsTable(r: Registry, c1: Command, a1: string, a2: string, c2: Command)
    requires r.Valid() && r.keys == [c1.name, a1, a2, c2.name]
    requires r.entries[c1.name] == c1 && r.entries[a1] == c1 && r.entries[a2] == c1 && r.entries[c2.name] == c2
    requires c1.name != a1 && c1.name != a2 && CommandAliases(c2) == []
    ensures LabelTable(r, 4) == Put(Put(Empty(), RowLabel(c1), c1), c2.name, c2)
  {
    var t1 := Put(Empty(), RowLabel(c1), c1);
    assert LabelTable(r, 1) == t1;
    assert LabelTable(r, 2) == t1;
    assert LabelTable(r, 3) == t1;
    assert RowLabel(c2) == c2.name;
  }

  /**
    A registry holding one command under its name and two aliases, then a
    second command under its own name, with different labels, shows exactly
    two rows in that order.
   */
  lemma HelpTwoCommands(r: Registry, c1: Command, a1: string, a2: string, c2: Command)
    requires r.Valid() && r.keys == [c1.name, a1, a2, c2.name]
    requires r.entries[c1.name] == c1 && r.entries[a1] == c1 && r.entries[a2] == c1 && r.entries[c2.name] == c2
    requires c1.name != a1 && c1.name != a2 && CommandAliases(c2) == [] && RowLabel(c1) != c2.name
    ensures HelpSection(r) == Some([(RowLabel(c1), c1), (c2.name, c2)])
  {
    TwoCommandsTable(r, c1, a1, a2, c2);
    ItemsOfTwo(RowLabel(c1), c1, c2.name, c2);
  }

  /** `"deploy"` with aliases `["d", "dep"]` and `"status"` with none give the rows `deploy (d, dep)` and `status`. */
  lemma HelpDeployStatus(deploy: Command, status: Command)
    requires deploy.name == "deploy" && deploy.aliases == AliasSeq([StrItem("d"), StrItem("dep")])
    requires status.name == "status" && status.aliases == AliasNone
    ensures var r := AfterAdd(AfterAdd(Empty(), deploy, None), status, None);
      r.Valid() && HelpSection(r) == Some([("deploy (d, dep)", deploy), ("status", status)])
  {
    DeployLabel(deploy);
    assert CommandAliases(status) == [];
    TwoCommandsRegistry(deploy, "d", "dep", status);
    HelpTwoCommands(AfterAdd(AfterAdd(Empty(), deploy, None), status, None), deploy, "d", "dep", status);
  }

  /** Writing help twice for an unchanged group gives the same section both times. */
  method HelpTwice(g: AliasedGroup) returns (first: Option<seq<Row>>, second: Option<seq<Row>>)
    requires g.Valid()
    ensures first == second
  {
    first := g.FormatCommands();
    second := g.FormatCommands();
  }
}
