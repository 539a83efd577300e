/**
  The alias values a command carries, and the pure rules that AliasedGroup
  applies to them: normalisation of the dynamically typed `aliases`
  attribute, the "valid alias" filter built on Python's `str.strip()`,
  and the help label `name (a1, a2, ...)`.
 */
module Aliases {

  /** One entry of an alias list: a Python `str`, or any other object. */
  datatype Item = StrItem(s: string) | NonStrItem

  /**
    The value found under a command's `aliases` attribute. `AliasNone` is
    both `None` and a missing attribute (`getattr(cmd, "aliases", None)`);
    `AliasSeq` is a list or a tuple; `AliasOther` is any other object.
   */
  datatype AliasValue = AliasNone | AliasStr(s: string) | AliasSeq(items: seq<Item>) | AliasOther

  /** The ordered entries that AliasedGroup iterates over for a raw `aliases` value. */
  function Normalize(v: AliasValue): (r: seq<Item>)
    ensures v.AliasNone? ==> r == []
    ensures v.AliasSeq? ==> r == v.items
    ensures v.AliasStr? ==> r == [StrItem(v.s)]
    ensures v.AliasOther? ==> r == []
  {
    match v
    case AliasNone => []
    case AliasSeq(items) => items
    case AliasStr(s) => [StrItem(s)]
    case AliasOther => []
  }

  /** The characters Python's `str.isspace()` accepts, which `str.strip()` removes. */
  predicate IsWhitespace(c: char)
  {
    || ('\t' <= c <= '\r')
    || ('\U{1C}' <= c <= ' ')
    || c == '\U{85}' || c == '\U{A0}' || c == '\U{1680}'
    || ('\U{2000}' <= c <= '\U{200A}')
    || c == '\U{2028}' || c == '\U{2029}' || c == '\U{202F}' || c == '\U{205F}'
    || c == '\U{3000}'
  }

  /** Every character of `s` is whitespace (the empty string included). */
  predicate IsBlank(s: string)
  {
    forall i :: 0 <= i < |s| ==> IsWhitespace(s[i])
  }

  /** `s.lstrip()` */
  function StripLeading(s: string): string
    decreases |s|
  {
    if s != [] && IsWhitespace(s[0]) then StripLeading(s[1..]) else s
  }

  /** `s.rstrip()` */
  function StripTrailing(s: string): string
    decreases |s|
  {
    if s != [] && IsWhitespace(s[|s| - 1]) then StripTrailing(s[..|s| - 1]) else s
  }

  /** `s.strip()` */
  function Strip(s: string): string
  {
    StripTrailing(StripLeading(s))
  }

  /** `lstrip` removes exactly the leading run of whitespace: what is left is a suffix that starts with a non-space. */
  lemma {:induction false} StripLeadingRemovesLeadingRun(s: string)
    ensures var r := StripLeading(s);
      && |r| <= |s| && r == s[|s| - |r|..]
      && IsBlank(s[..|s| - |r|])
      && (r != [] ==> !IsWhitespace(r[0]))
    decreases |s|
  {
    if s != [] && IsWhitespace(s[0]) {
      StripLeadingRemovesLeadingRun(s[1..]);
      var r := StripLeading(s);
      assert s[1..][..|s| - 1 - |r|] == s[1..|s| - |r|];
      assert forall i :: 1 <= i < |s| - |r| ==> s[i] == s[1..][..|s| - 1 - |r|][i - 1];
    }
  }

  /** `rstrip` removes exactly the trailing run of whitespace: what is left is a prefix that ends with a non-space. */
  lemma {:induction false} StripTrailingRemovesTrailingRun(s: string)
    ensures var r := StripTrailing(s);
      && |r| <= |s| && r == s[..|r|]
      && IsBlank(s[|r|..])
      && (r != [] ==> !IsWhitespace(r[|r| - 1]))
    decreases |s|
  {
    if s != [] && IsWhitespace(s[|s| - 1]) {
      StripTrailingRemovesTrailingRun(s[..|s| - 1]);
      var r := StripTrailing(s);
      assert forall i :: |r| <= i < |s| - 1 ==> s[i] == s[..|s| - 1][|r|..][i - |r|];
    }
  }

  /** The strip in `alias.strip()` leaves nothing exactly when the alias is all whitespace. */
  lemma StripEmptyIffBlank(s: string)
    ensures Strip(s) == [] <==> IsBlank(s)
  {
    var t := StripLeading(s);
    StripLeadingRemovesLeadingRun(s);
    StripTrailingRemovesTrailingRun(t);
    if !IsBlank(s) {
      var i :| 0 <= i < |s| && !IsWhitespace(s[i]);
      assert t != [];
      assert StripTrailing(t) != [];
    }
  }

  /** `isinstance(alias, str) and alias.strip()` */
  predicate IsValidAlias(item: Item)
  {
    item.StrItem? && Strip(item.s) != []
  }

  /** An entry is a valid alias exactly when it is a string that is not all whitespace. */
  lemma ValidAliasIffNotBlank(item: Item)
    ensures IsValidAlias(item) <==> item.StrItem? && !IsBlank(item.s)
  {
    if item.StrItem? {
      StripEmptyIffBlank(item.s);
    }
  }

  /** A string whose first character is not whitespace is a valid alias. */
  lemma VisibleIsValid(s: string)
    requires s != [] && !IsWhitespace(s[0])
    ensures IsValidAlias(StrItem(s))
  {
    ValidAliasIffNotBlank(StrItem(s));
  }

  /** An all-whitespace string, the empty one included, is not a valid alias. */
  lemma BlankIsInvalid(s: string)
    requires IsBlank(s)
    ensures !IsValidAlias(StrItem(s))
  {
    ValidAliasIffNotBlank(StrItem(s));
  }

  /**
    The valid aliases of a normalised alias list, in declared order, each the
    original (untrimmed) string: `[a for a in aliases if isinstance(a, str) and a.strip()]`.
   */
  function ValidAliases(items: seq<Item>): (r: seq<string>)
    ensures |r| <= |items|
    decreases |items|
  {
    if items == [] then []
    else (if IsValidAlias(items[0]) then [items[0].s] else []) + ValidAliases(items[1..])
  }

  /** A string is among the valid aliases exactly when it is a valid entry of the list. */
  lemma {:induction false} ValidAliasesMembers(items: seq<Item>)
    ensures forall a :: a in ValidAliases(items) <==> StrItem(a) in items && IsValidAlias(StrItem(a))
    decreases |items|
  {
    if items != [] {
      assert items == [items[0]] + items[1..];
      ValidAliasesMembers(items[1..]);
    }
  }

  /** The filter over a list with one more entry in front. */
  lemma ValidAliasesCons(x: Item, xs: seq<Item>)
    ensures ValidAliases([x] + xs) == (if IsValidAlias(x) then [x.s] else []) + ValidAliases(xs)
  {
    assert ([x] + xs)[1..] == xs;
  }

  /** Filtering distributes over concatenation, so declared order is kept. */
  lemma {:induction false} ValidAliasesAppend(xs: seq<Item>, ys: seq<Item>)
    ensures ValidAliases(xs + ys) == ValidAliases(xs) + ValidAliases(ys)
    decreases |xs|
  {
    if xs == [] {
      assert xs + ys == ys;
    } else {
      assert (xs + ys)[0] == xs[0];
      assert (xs + ys)[1..] == xs[1..] + ys;
      ValidAliasesAppend(xs[1..], ys);
    }
  }

  /** The filter over one more entry: that entry's string is appended exactly when it is valid. */
  lemma ValidAliasesSnoc(items: seq<Item>, i: nat)
    requires i < |items|
    ensures ValidAliases(items[..i + 1])
      == ValidAliases(items[..i]) + if IsValidAlias(items[i]) then [items[i].s] else []
  {
    assert items[..i + 1] == items[..i] + [items[i]];
    ValidAliasesAppend(items[..i], [items[i]]);
    assert [items[i]][1..] == [];
  }

  /** A bare string is one alias, never its characters: it yields itself or nothing. */
  lemma BareStringIsOneAlias(s: string)
    ensures ValidAliases(Normalize(AliasStr(s))) == if IsBlank(s) then [] else [s]
  {
    StripEmptyIffBlank(s);
    assert [StrItem(s)][1..] == [];
  }

  /** `sep.join(xs)` */
  function Join(sep: string, xs: seq<string>): string
    decreases |xs|
  {
    if xs == [] then []
    else if |xs| == 1 then xs[0]
    else xs[0] + sep + Join(sep, xs[1..])
  }

  /** Joining one more element appends the separator and that element. */
  lemma {:induction false} JoinAppend(sep: string, xs: seq<string>, y: string)
    requires xs != []
    ensures Join(sep, xs + [y]) == Join(sep, xs) + sep + y
    decreases |xs|
  {
    assert (xs + [y])[0] == xs[0];
    assert (xs + [y])[1..] == xs[1..] + [y];
    if |xs| > 1 {
      JoinAppend(sep, xs[1..], y);
    }
  }

  /** The help-table label of a command: its name, followed by its valid aliases if it has any. */
  function Label(name: string, valid: seq<string>): string
  {
    if valid == [] then name else name + " (" + Join(", ", valid) + ")"
  }

  /**
    A label is the bare name exactly when there are no valid aliases; otherwise
    it is the name, then " (", the aliases joined by ", ", and ")".
   */
  lemma LabelShape(name: string, valid: seq<string>)
    ensures Label(name, valid) == name <==> valid == []
    ensures valid != [] ==> var r := Label(name, valid);
      && |r| == |name| + 3 + |Join(", ", valid)|
      && r[..|name|] == name && r[|name|..|name| + 2] == " (" && r[|r| - 1] == ')'
      && r[|name| + 2..|r| - 1] == Join(", ", valid)
  {
    if valid != [] {
      assert |Label(name, valid)| > |name|;
    }
  }
}
