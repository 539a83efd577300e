# click-with-aliasing: the AliasedGroup registry, in Dafny

`AliasedGroup` is a click command group that lets a command be called by other
names. It has three parts.

- **Registration.** `add_command` first registers a command under its name,
  the way the base group does. It then registers the *same command object*
  again under each alias. An alias counts only if it is a string that is not
  all whitespace. The key is the alias exactly as written.
- **Alias forms.** The `aliases` attribute may be `None` or missing, a list or
  tuple, a bare string (one alias), or any other object (no aliases).
- **Help output.** `format_commands` walks the registry in order. It keeps
  only *primary* entries, those whose key is the command's own name. It labels
  each one `name` or `name (a1, a2, ...)`, and it writes a "Commands" section
  only when at least one row exists.

The model is split into four files:

- `aliases.dfy` (module `Aliases`):
  - the dynamic alias value as a datatype, and its normalisation to a list of entries;
  - Python's `str.strip()` over the `str.isspace()` character set;
  - the valid-alias filter;
  - `sep.join` and the help label.
- `ordered_dict.dfy` (module `OrderedDicts`): a Python `dict`
  as an insertion-ordered dictionary. Assigning to a key that is already present
  replaces its value and keeps its position. `Items` is `list(d.items())`.
- `aliased_group.dfy` (modules `Options`, for `Optional[str]`, and `AliasedGroups`):
  - `Command` is a class with a name and a raw `aliases` value, so identity is
    object identity.
  - `AliasedGroup` is a class whose `keys` and `commands` fields are its
    registry.
  - `AddCommand` keeps the source's loop and is proved equal to the
    specification function `AfterAdd`.
  - `FormatCommands` keeps the source's loop over a local label-keyed
    dictionary and is proved equal to `HelpSection`.
- `aliased_group_properties.dfy` (module `AliasedGroupProperties`): what the
  component promises, proved about `AfterAdd` and `HelpSection`, plus worked
  instances taken from the component's documented behaviour.

Five behaviours of the code are worth knowing:

- **Labels key the rows.** `format_commands` collects rows in a dictionary keyed
  by *label*. Two primary entries with the same label would therefore collapse
  into one row: the row stays at the first position and shows the later
  command. The model keeps this. `HelpRowsInRegistryOrder` states the plain
  "one row per primary entry, in registry order" result under the hypothesis
  that labels are distinct. For example, a command literally named
  `"a (b)"` next to a command `a` with alias `b` would collide.
- **Primary means key equals name.** The entry created under an explicit
  `name` that differs from `cmd.name` gives no help row, because its key is not
  the command's name. The command is shown only if it is also registered under
  its own name, for instance earlier, or through an alias equal to `cmd.name`
  (`AddedNamesPrimaryIffOwnName`).
- **An alias can take over another command's name.** Registering an alias that
  equals another command's name rebinds that key to the new command. The other
  command's entry there stops being primary, so it loses the help row it had
  through that key (`AddedNamesPrimaryIffOwnName`).
- **Nothing is trimmed.** An alias such as `" d "` is registered with its
  spaces. `strip()` is used only to decide whether the alias is blank.
- **Reads only.** `FormatCommands` has no `modifies` clause, so it cannot change
  the registry. Calling it twice gives the same section (`HelpTwice`).

## Model

| member | source | states |
|---|---|---|
| Aliases.Normalize | click_with_aliasing/_aliased_group.py:29-33 | `None` or a missing attribute gives no entries, a list or tuple is kept as is, a bare string gives exactly one entry, and any other object gives no entries; its partner is `BareStringIsOneAlias` |
| Aliases.IsWhitespace | click_with_aliasing/_aliased_group.py:37 | models the characters `str.isspace()` accepts and `strip()` removes: U+0009 to U+000D, U+001C to U+0020, U+0085, U+00A0, U+1680, U+2000 to U+200A, U+2028, U+2029, U+202F, U+205F and U+3000; `IsBlank` and the strip lemmas are built on it |
| Aliases.StripLeading | click_with_aliasing/_aliased_group.py:37 | models the left half of `alias.strip()`: drop whitespace characters from the front; characterised by `StripLeadingRemovesLeadingRun` |
| Aliases.StripTrailing | click_with_aliasing/_aliased_group.py:37 | models the right half of `alias.strip()`: drop whitespace characters from the back; characterised by `StripTrailingRemovesTrailingRun` |
| Aliases.Strip | click_with_aliasing/_aliased_group.py:37 | models `alias.strip()` as the two halves in turn; its emptiness is characterised by `StripEmptyIffBlank` |
| Aliases.IsValidAlias | click_with_aliasing/_aliased_group.py:37 | models the test `isinstance(alias, str) and alias.strip()`, also used by the comprehension at :64; characterised by `ValidAliasIffNotBlank` |
| Aliases.Join | click_with_aliasing/_aliased_group.py:68 | models `", ".join(valid_aliases)`: the elements in order with the separator between neighbours; its step is `JoinAppend` |
| Aliases.Label | click_with_aliasing/_aliased_group.py:67-68 | models the label choice: the bare name without valid aliases, the f-string `name (joined)` otherwise; characterised by `LabelShape` |
| Aliases.StripLeadingRemovesLeadingRun | click_with_aliasing/_aliased_group.py:37 | the left half of `strip()` drops exactly the leading whitespace run: what is left is a suffix of the input that starts with a non-space character, and what was dropped is all whitespace |
| Aliases.StripTrailingRemovesTrailingRun | click_with_aliasing/_aliased_group.py:37 | the right half of `strip()` drops exactly the trailing whitespace run: what is left is a prefix that ends with a non-space character |
| Aliases.StripEmptyIffBlank | click_with_aliasing/_aliased_group.py:37 | `alias.strip()` is empty if and only if every character of the alias is whitespace, the empty string included |
| Aliases.ValidAliasIffNotBlank | click_with_aliasing/_aliased_group.py:37 | an entry passes the alias test if and only if it is a string that is not all whitespace |
| Aliases.ValidAliases | click_with_aliasing/_aliased_group.py:63-65 | the filtered list is never longer than the list of entries |
| Aliases.ValidAliasesMembers | click_with_aliasing/_aliased_group.py:63-65 | a string is among the valid aliases if and only if it is a string entry of the list that passes the alias test |
| Aliases.ValidAliasesAppend | click_with_aliasing/_aliased_group.py:63-65 | filtering a concatenation is the concatenation of the filtered parts, so declared order is kept |
| Aliases.BareStringIsOneAlias | click_with_aliasing/_aliased_group.py:33 | a bare string yields itself as the single alias, or nothing when it is blank, and is never split into characters |
| Aliases.JoinAppend | click_with_aliasing/_aliased_group.py:68 | joining one more alias appends `", "` and that alias |
| Aliases.LabelShape | click_with_aliasing/_aliased_group.py:67-68 | the label is the bare name if and only if there are no valid aliases; otherwise it is the name, then `" ("`, the aliases joined by `", "`, then `")"`, with the lengths adding up |
| OrderedDicts.Put | click_with_aliasing/_aliased_group.py:35 | a keyed insert binds the key to the value and keeps every other binding; a new key is appended to the key order and an existing key keeps its place; its partners are `PutValid` and `ItemsPutFresh` |
| OrderedDicts.PutAll | click_with_aliasing/_aliased_group.py:36-38 | models the inserts of the alias loop, one key after another, all bound to one value: the old key order stays a prefix of the new one; see `PutAllEntries`, `PutAllValid` and `PutAllAppend` |
| OrderedDicts.PutValid | click_with_aliasing/_aliased_group.py:35 | an insert keeps the keys listed once each, and listed exactly when mapped |
| OrderedDicts.Items | click_with_aliasing/_aliased_group.py:72 | the item list has one pair per key, in key order, each paired with its value; its partner is `ItemsEmptyIffNoEntries` |
| OrderedDicts.ItemsEmptyIffNoEntries | click_with_aliasing/_aliased_group.py:75 | a dictionary has no items if and only if it maps no key |
| OrderedDicts.ItemsPutFresh | click_with_aliasing/_aliased_group.py:69 | inserting a key that is not yet present appends exactly that one item at the end |
| OrderedDicts.PutAllEntries | click_with_aliasing/_aliased_group.py:36-38 | after binding a list of keys to one value, the mapped keys are the old ones plus that list, each listed key maps to the value, and every other key keeps its value |
| OrderedDicts.PutAllValid | click_with_aliasing/_aliased_group.py:36-38 | repeated inserts keep the dictionary well formed |
| AliasedGroups.Command.constructor | click_with_aliasing/_aliased_group.py:29 | a command object carries the name and the raw `aliases` attribute it was built with; both are fixed for its lifetime (see "Left out") |
| AliasedGroups.CommandAliases | click_with_aliasing/_aliased_group.py:57-65 | models the normalise-then-filter step that `add_command` does at :29-37 and `format_commands` repeats at :57-65: `ValidAliases` of `Normalize` of the command's `aliases`; characterised by `ValidAliasesMembers` and `BareStringIsOneAlias` |
| AliasedGroups.IsPrimary | click_with_aliasing/_aliased_group.py:56 | models the test `name == cmd.name`: the key is registered and maps to a command whose name is that key; `HelpRowsArePrimary`, `HelpSectionOmittedIff` and `AddedNamesPrimaryIffOwnName` are stated with it |
| AliasedGroups.PrimaryKey | click_with_aliasing/_aliased_group.py:35 | models the key the base `add_command` uses: `name` when given, `cmd.name` when omitted |
| AliasedGroups.RowLabel | click_with_aliasing/_aliased_group.py:56-68 | models the label format_commands builds for a primary entry: `Label` of the command's name and of its valid aliases, re-read from the command |
| AliasedGroups.AfterAdd | click_with_aliasing/_aliased_group.py:29-38 | models the whole registration: insert under the primary key, then `PutAll` over the valid aliases of the normalised attribute; `AddCommand` is proved equal to it and `AddRegistersUnderEveryName`, `AddChangesOnlyItsNames`, `AddRegistersUntrimmedStrings` state what it does |
| AliasedGroups.AfterAddValid | click_with_aliasing/_aliased_group.py:35-38 | a registration keeps the registry well formed |
| AliasedGroups.LabelTable | click_with_aliasing/_aliased_group.py:54-69 | models the local label-keyed `commands` dictionary after the loop has visited the first `n` registry entries, and it is always well formed; `FormatCommands`' loop invariant is equality with it, `LabelTableSound` and `LabelTableComplete` characterise it |
| AliasedGroups.LabelTableSound | click_with_aliasing/_aliased_group.py:55-69 | every label collected belongs to a primary entry visited so far, is registered under that command's own name, and is exactly that command's label |
| AliasedGroups.LabelTableComplete | click_with_aliasing/_aliased_group.py:55-69 | every primary entry visited so far has its label among the collected labels |
| AliasedGroups.HelpSection | click_with_aliasing/_aliased_group.py:71-77 | models what reaches the formatter: no section when the label table has no items, otherwise its items as the rows; characterised by `HelpRowsArePrimary`, `HelpCoversEveryPrimary`, `HelpSectionOmittedIff` and `HelpRowsInRegistryOrder` |
| AliasedGroups.AliasedGroup.constructor | click_with_aliasing/_aliased_group.py:11-13 | a new group has an empty registry, and stores its `aliases` keyword argument, or `[]` when it is not given |
| AliasedGroups.AliasedGroup.BaseAddCommand | click_with_aliasing/_aliased_group.py:35 | the base registration is a keyed insert under `name`, or under `cmd.name` when `name` is omitted, and keeps the registry well formed |
| AliasedGroups.AliasedGroup.AddCommand | click_with_aliasing/_aliased_group.py:15-38 | the new registry is the old one with the command inserted under its primary key and then under each valid alias in declared order, and it stays well formed |
| AliasedGroups.AliasedGroup.FormatCommands | click_with_aliasing/_aliased_group.py:40-77 | the section produced by the loop equals the specification `HelpSection`: the label table's items, or no section when there are none |
| AliasedGroupProperties.AddRegistersUnderEveryName | click_with_aliasing/_aliased_group.py:35-38 | after `add_command` the primary key maps to the command, and every valid alias maps to the identical object the primary key maps to |
| AliasedGroupProperties.AddChangesOnlyItsNames | click_with_aliasing/_aliased_group.py:35-38 | the registered keys become exactly the old keys, the primary key and the valid aliases; any other key keeps both its presence and its command |
| AliasedGroupProperties.AddKeepsOrder | click_with_aliasing/_aliased_group.py:35-38 | registration never reorders: the old key order is a prefix of the new one |
| AliasedGroupProperties.AddRegistersUntrimmedStrings | click_with_aliasing/_aliased_group.py:36-38 | a string entry that is not all whitespace becomes a key, exactly as written; a key added from the alias list is such an entry |
| AliasedGroupProperties.AddedNamesPrimaryIffOwnName | click_with_aliasing/_aliased_group.py:35-38 | every name registered by `add_command` maps to the command, so by the test at :56 it is a primary entry exactly when it equals `cmd.name`: an explicit other name is not primary, and an alias equal to another command's name takes over that entry |
| AliasedGroupProperties.AddOneAliasToEmpty | click_with_aliasing/_aliased_group.py:35-38 | a command with one valid alias added to an empty group gives exactly the keys `[primary, alias]`, both mapping to the command |
| AliasedGroupProperties.AddTwoAliasesToEmpty | click_with_aliasing/_aliased_group.py:35-38 | a command with two valid aliases added to an empty group gives exactly the keys `[primary, a1, a2]`, all mapping to the command |
| AliasedGroupProperties.AddWithoutAliases | click_with_aliasing/_aliased_group.py:35-38 | a command without valid aliases is one keyed insert under its primary key |
| AliasedGroupProperties.SkipsBlankEntries | click_with_aliasing/_aliased_group.py:63-65 | the valid aliases of `["d", "", "  ", <non-string>, "dep"]` are `["d", "dep"]` |
| AliasedGroupProperties.AddSkipsBlankAliases | click_with_aliasing/_aliased_group.py:36-38 | registering `deploy` with those aliases adds exactly the keys `deploy`, `d`, `dep`, in that order |
| AliasedGroupProperties.AddKeepsSurroundingSpaces | click_with_aliasing/_aliased_group.py:37-38 | the alias `" d "` is registered with its spaces, and `"d"` is not a key |
| AliasedGroupProperties.AddBareStringAlias | click_with_aliasing/_aliased_group.py:29-38 | a bare string alias `"dep"` registers `dep` alone, not its characters |
| AliasedGroupProperties.HelpRowsArePrimary | click_with_aliasing/_aliased_group.py:55-69 | every help row comes from a primary entry: its command is registered under its own name, and the row's label is that command's label |
| AliasedGroupProperties.HelpCoversEveryPrimary | click_with_aliasing/_aliased_group.py:54-75 | every primary entry's label appears among the help rows, and no label appears twice |
| AliasedGroupProperties.HelpSectionOmittedIff | click_with_aliasing/_aliased_group.py:71-77 | no "Commands" section is written if and only if no registry entry is primary, an empty registry included |
| AliasedGroupProperties.LabelIsFresh | click_with_aliasing/_aliased_group.py:69 | when labels are distinct, a primary entry's label is not yet collected when the loop reaches it |
| AliasedGroupProperties.LabelTableItems | click_with_aliasing/_aliased_group.py:54-73 | when labels are distinct, the rows collected from the first `n` keys are exactly their primary entries, in registry order |
| AliasedGroupProperties.HelpRowsInRegistryOrder | click_with_aliasing/_aliased_group.py:54-77 | when no two primary entries share a label, the section is exactly one row per primary entry in registry order, or absent when there is none; alias entries add no rows |
| AliasedGroupProperties.DeployLabel | click_with_aliasing/_aliased_group.py:63-68 | `deploy` with aliases `["d", "dep"]` has the valid aliases `d`, `dep` and the label `deploy (d, dep)` |
| AliasedGroupProperties.TwoCommandsRegistry | click_with_aliasing/_aliased_group.py:35-38 | adding a command with two aliases and then one with none gives four keys in that order, the first three mapping to the first command |
| AliasedGroupProperties.TwoCommandsTable | click_with_aliasing/_aliased_group.py:55-69 | in such a registry the alias keys add no labels; only the two primary entries do |
| AliasedGroupProperties.HelpTwoCommands | click_with_aliasing/_aliased_group.py:54-77 | such a registry shows exactly two rows, in order: the first command's label, then the second command's name |
| AliasedGroupProperties.HelpDeployStatus | click_with_aliasing/_aliased_group.py:15-77 | registering `deploy` (aliases `d`, `dep`) and then `status` (no aliases) gives the rows `deploy (d, dep)` and `status` |
| AliasedGroupProperties.HelpTwice | click_with_aliasing/_aliased_group.py:40-77 | formatting help twice for an unchanged group gives the same section both times |

## Left out

- click_with_aliasing/command.py is not part of this model. It is a thin decorator over `click.command`: an `asyncio.run` adapter for coroutine callbacks (concurrency, not modelled) and an `aliases or []` default.
- click_with_aliasing/group.py is not part of this model. It is a thin decorator over `click.group`, whose only logic is `name or func.__name__`.
- `AliasedCommand`, imported by command.py, is not part of this model.
- The base `click.Group.add_command` is modelled only as a keyed insert. Its nested-chain checks, its `TypeError` when there is no name, and its handling of groups used as sub-commands live in click and are not modelled. A group is therefore not itself a `Command` here.
- AliasedGroups.PrimaryKey: click falls back to `cmd.name` when `name` is falsy. The model falls back only when `name` is omitted (`None`), so an explicit empty `name` is registered as `""`.
- `get_short_help_str`, and the `HelpFormatter` section and `write_dl` layout, are not modelled. A row pairs its label with the `Command` object whose short help would be shown, and the "Commands" section is the optional row list that is returned.
- The docstring of `add_command` mentions a `ValueError` for a taken name, but nothing in the code raises it. A taken name is simply overwritten, which is what `OrderedDicts.Put` does.
- `ctx` and `formatter` are not parameters of `FormatCommands`, because the rows depend on neither. Other keyword arguments of `__init__` are passed to click and are not modelled. In particular click's `commands=` argument, which group.py passes through, fills the registry directly without `add_command`, so the aliases of commands given that way are never registered; the model's constructor always starts from an empty registry.
- A command's `name` and `aliases` are fixed when the command is built (`const` fields of `Command`). In the code they are ordinary attributes: command.py assigns `cmd.aliases` after construction and stores the caller's list by reference, and `format_commands` re-reads both at help time. Changes made after registration are not modelled, including a rename and in-place mutation of a shared aliases list, so the model cannot show a help label that disagrees with the registered keys.
- Alias entries other than strings are modelled as a single `NonStrItem`. The code only tests `isinstance(alias, str)`, so their values never matter.
