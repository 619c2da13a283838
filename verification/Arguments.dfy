/** The command line's arguments (`packages/cli/src/cli/args.ts`): a strict parser that refuses what it does not know,
    what comes twice and what has no value, and the command lines it accepts. */
module Arguments {
  import opened Wrappers
  import opened Sequences
  import opened Strings

  datatype OptionKind = Boolean | Text

  /** The options a command declares, by name. */
  type Spec = string -> Option<OptionKind>

  datatype FlagValue = On | Given(text: string)

  datatype Flag = Flag(name: string, value: FlagValue)

  datatype UsageError =
    | UnknownOption(option: string)
    | TakesNoValue(name: string)
    | NeedsValue(name: string)
    | Repeated(option: string)

  datatype Parsed = Ok(flags: seq<Flag>, positionals: seq<string>) | Err(error: UsageError)

  /** The own properties of the flags record. */
  function NamesOf(flags: seq<Flag>): (names: seq<string>)
    ensures |names| == |flags| && forall i :: 0 <= i < |flags| ==> names[i] == flags[i].name
  {
    seq(|flags|, i requires 0 <= i < |flags| => flags[i].name)
  }

  // ----- what a command line is made of

  /** One argument as its writer means it; a text option comes with its value in the same token or in the next one. */
  datatype Item =
    | Positional(text: string)
    | Help
    | Switch(name: string)
    | Inline(name: string, value: string)
    | Spaced(name: string, value: string)

  function Width(item: Item): nat { if item.Spaced? then 2 else 1 }

  function Tokens(item: Item): (tokens: seq<string>)
    ensures |tokens| == Width(item)
  {
    match item
    case Positional(text) => [text]
    case Help => ["-h"]
    case Switch(name) => ["--" + name]
    case Inline(name, value) => ["--" + name + "=" + value]
    case Spaced(name, value) => ["--" + name, value]
  }

  function Render(items: seq<Item>): seq<string> {
    if items == [] then [] else Tokens(items[0]) + Render(items[1..])
  }

  predicate Dashed(token: string) {
    StartsWith(token, "-")
  }

  predicate ValidItem(item: Item, spec: Spec) {
    match item
    case Positional(text) => !Dashed(text) || text == "-"
    case Help => true
    case Switch(name) => '=' !in name && spec(name) == Some(Boolean)
    case Inline(name, value) => '=' !in name && spec(name) == Some(Text) && value != ""
    case Spaced(name, value) => '=' !in name && spec(name) == Some(Text) && value != "" && !Dashed(value)
  }

  predicate ValidItems(items: seq<Item>, spec: Spec) {
    forall i :: 0 <= i < |items| ==> ValidItem(items[i], spec)
  }

  function FlagOf(item: Item): Flag
    requires !item.Positional?
  {
    match item
    case Help => Flag("help", On)
    case Switch(name) => Flag(name, On)
    case Inline(name, value) => Flag(name, Given(value))
    case Spaced(name, value) => Flag(name, Given(value))
  }

  function FlagsOf(items: seq<Item>): seq<Flag> {
    if items == [] then []
    else (if items[0].Positional? then [] else [FlagOf(items[0])]) + FlagsOf(items[1..])
  }

  function PositionalsOf(items: seq<Item>): seq<string> {
    if items == [] then []
    else (if items[0].Positional? then [items[0].text] else []) + PositionalsOf(items[1..])
  }

  ghost predicate NoneTwice(flags: seq<Flag>) {
    forall i, j :: 0 <= i < j < |flags| ==> flags[i].name != flags[j].name
  }

  // ----- the parser

  datatype Reading = Read(item: Item) | Fault(error: UsageError)

  /** What follows the name of a long option and its `=`: `arg.slice(equals + 1)`. */
  function Behind(arg: string, name: string): string
    requires |name| + 3 <= |arg|
  {
    arg[|name| + 3..]
  }

  /** The item at the front of a command line. */
  function ReadItem(argv: seq<string>, spec: Spec): Reading
    requires argv != []
  {
    var arg := argv[0];
    if arg == "-h" then Read(Help)
    else if !StartsWith(arg, "--") then
      if Dashed(arg) && |arg| > 1 then Fault(UnknownOption(arg)) else Read(Positional(arg))
    else
      var equals := IndexOf(arg, '=');
      var name := if equals == -1 then arg[2..] else arg[2..equals];
      match spec(name)
      case None => Fault(UnknownOption("--" + name))
      case Some(Boolean) => if equals == -1 then Read(Switch(name)) else Fault(TakesNoValue(name))
      case Some(Text) =>
        if equals != -1 then
          if Behind(arg, name) == "" then Fault(NeedsValue(name)) else Read(Inline(name, Behind(arg, name)))
        else if |argv| == 1 || argv[1] == "" || Dashed(argv[1]) then Fault(NeedsValue(name))
        else Read(Spaced(name, argv[1]))
  }

  /** The option a repetition is blamed on, as it was written. */
  function LabelOf(item: Item): string
    requires !item.Positional?
  {
    if item.Help? then "-h" else "--" + item.name
  }

  function ParseFrom(argv: seq<string>, spec: Spec, flags: seq<Flag>, positionals: seq<string>): Parsed
    decreases |argv|
  {
    if argv == [] then Ok(flags, positionals)
    else match ReadItem(argv, spec)
      case Fault(error) => Err(error)
      case Read(item) =>
        var rest := argv[Width(item)..];
        if item.Positional? then ParseFrom(rest, spec, flags, positionals + [item.text])
        else
          if FlagOf(item).name in NamesOf(flags) then Err(Repeated(LabelOf(item)))
          else ParseFrom(rest, spec, flags + [FlagOf(item)], positionals)
  }

  /** What the rest of the command line from `index` on consists of. */
  lemma RestFrom(argv: seq<string>, index: nat)
    requires index < |argv|
    ensures var rest := argv[index..];
      && rest != [] && rest[0] == argv[index] && rest[1..] == argv[index + 1..]
      && (|rest| == 1 <==> index + 1 == |argv|)
      && (|rest| > 1 ==> rest[1] == argv[index + 1] && rest[2..] == argv[index + 2..])
  {
  }

  method ParseArgs(argv: seq<string>, spec: Spec) returns (r: Parsed)
    ensures r == ParseFrom(argv, spec, [], [])
  {
    var flags: seq<Flag>, positionals: seq<string> := [], [];
    var index := 0;
    while index < |argv|
      invariant 0 <= index <= |argv|
      invariant ParseFrom(argv, spec, [], []) == ParseFrom(argv[index..], spec, flags, positionals)
      decreases |argv| - index
    {
      var arg := argv[index];
      RestFrom(argv, index);
      index := index + 1;
      if arg == "-h" {
        if "help" in NamesOf(flags) { return Err(Repeated(arg)); }
        flags := flags + [Flag("help", On)];
        continue;
      }
      if !StartsWith(arg, "--") {
        if StartsWith(arg, "-") && |arg| > 1 { return Err(UnknownOption(arg)); }
        positionals := positionals + [arg];
        continue;
      }
      var equals := IndexOf(arg, '=');
      var name := if equals == -1 then arg[2..] else arg[2..equals];
      var kind := spec(name);
      if kind.None? { return Err(UnknownOption("--" + name)); }
      if kind.value == Boolean {
        if equals != -1 { return Err(TakesNoValue(name)); }
        if name in NamesOf(flags) { return Err(Repeated("--" + name)); }
        flags := flags + [Flag(name, On)];
        continue;
      }
      var value: Option<string>;
      if equals != -1 {
        value := Some(Behind(arg, name));
      } else {
        value := if index < |argv| then Some(argv[index]) else None;
        index := index + 1;
      }
      if value.None? || value.value == "" || (equals == -1 && StartsWith(value.value, "-")) {
        return Err(NeedsValue(name));
      }
      if name in NamesOf(flags) { return Err(Repeated("--" + name)); }
      flags := flags + [Flag(name, Given(value.value))];
    }
    assert argv[index..] == [];
    return Ok(flags, positionals);
  }

  // ----- one item

  lemma InlinePieces(name: string, value: string)
    requires '=' !in name
    ensures var arg := "--" + name + "=" + value;
      && arg != "-h" && StartsWith(arg, "--") && IndexOf(arg, '=') == 2 + |name|
      && arg[2..2 + |name|] == name && arg[2 + |name| + 1..] == value
  {
    var arg := "--" + name + "=" + value;
    IndexOfFirst("--" + name, '=', value);
    assert arg == "--" + name + ['='] + value;
    assert arg[1] == '-';
  }

  /** An item is read back from its tokens, whatever follows them. */
  lemma ReadBack(item: Item, rest: seq<string>, spec: Spec)
    requires ValidItem(item, spec)
    ensures ReadItem(Tokens(item) + rest, spec) == Read(item)
    ensures (Tokens(item) + rest)[|Tokens(item)|..] == rest
  {
    match item
    case Positional(_) =>
    case Help =>
    case Switch(name) =>
      assert '=' !in "--" + name && ("--" + name)[1] == '-';
      assert ("--" + name)[2..] == name;
    case Spaced(name, value) =>
      assert '=' !in "--" + name && ("--" + name)[1] == '-';
      assert (Tokens(item) + rest)[1] == value;
      assert ("--" + name)[2..] == name;
    case Inline(name, value) =>
      InlinePieces(name, value);
  }

  /** What is read is valid, and the tokens it is read from are its own. */
  lemma ReadIsValid(argv: seq<string>, spec: Spec)
    requires argv != [] && ReadItem(argv, spec).Read?
    ensures var item := ReadItem(argv, spec).item;
      ValidItem(item, spec) && |Tokens(item)| <= |argv| && Tokens(item) == argv[..|Tokens(item)|]
  {
    var arg := argv[0];
    var item := ReadItem(argv, spec).item;
    if StartsWith(arg, "--") {
      var equals := IndexOf(arg, '=');
      if equals == -1 {
        assert arg == "--" + arg[2..];
      } else {
        var name := arg[2..equals];
        assert arg == "--" + name + "=" + arg[equals + 1..];
        assert forall c :: c in name ==> c in arg[..equals];
      }
    } else if arg != "" && arg[0] == '-' && |arg| == 1 {
      assert arg == "-";
    }
  }

  /** A command line with a readable front: its first item and the tokens after it. */
  lemma ReadFront(argv: seq<string>, spec: Spec) returns (item: Item, rest: seq<string>)
    requires argv != [] && ReadItem(argv, spec).Read?
    ensures ReadItem(argv, spec) == Read(item) && ValidItem(item, spec)
    ensures argv == Tokens(item) + rest && rest == argv[|Tokens(item)|..] && |rest| < |argv|
  {
    ReadIsValid(argv, spec);
    item := ReadItem(argv, spec).item;
    rest := argv[|Tokens(item)|..];
  }

  // ----- flags without repetition

  lemma FlagIsFree(flags: seq<Flag>, flag: Flag, more: seq<Flag>)
    requires NoneTwice(flags + [flag] + more)
    ensures flag.name !in NamesOf(flags)
  {
    var all := flags + [flag] + more;
    forall i | 0 <= i < |flags| ensures NamesOf(flags)[i] != flag.name {
      assert all[i] == flags[i] && all[|flags|] == flag;
    }
  }

  lemma FlagIsNew(flags: seq<Flag>, flag: Flag)
    requires NoneTwice(flags) && flag.name !in NamesOf(flags)
    ensures NoneTwice(flags + [flag])
  {
    assert forall i :: 0 <= i < |flags| ==> flags[i].name == NamesOf(flags)[i];
  }

  lemma ItemsInFront(item: Item, tail: seq<Item>, flags: seq<Flag>, positionals: seq<string>)
    ensures item.Positional? ==>
      && flags + FlagsOf([item] + tail) == flags + FlagsOf(tail)
      && positionals + PositionalsOf([item] + tail) == positionals + [item.text] + PositionalsOf(tail)
    ensures !item.Positional? ==>
      && flags + FlagsOf([item] + tail) == flags + [FlagOf(item)] + FlagsOf(tail)
      && positionals + PositionalsOf([item] + tail) == positionals + PositionalsOf(tail)
    ensures Render([item] + tail) == Tokens(item) + Render(tail)
  {
    Front(item, tail);
    Neutral(FlagsOf(tail));
    Neutral(PositionalsOf(tail));
    if item.Positional? {
      Assoc(positionals, [item.text], PositionalsOf(tail));
    } else {
      Assoc(flags, [FlagOf(item)], FlagsOf(tail));
    }
  }

  lemma Front(item: Item, tail: seq<Item>)
    ensures FlagsOf([item] + tail) == (if item.Positional? then [] else [FlagOf(item)]) + FlagsOf(tail)
    ensures PositionalsOf([item] + tail) == (if item.Positional? then [item.text] else []) + PositionalsOf(tail)
    ensures Render([item] + tail) == Tokens(item) + Render(tail)
  {
    Tail(item, tail);
  }

  lemma ValidInFront(item: Item, tail: seq<Item>, spec: Spec)
    requires ValidItem(item, spec) && ValidItems(tail, spec)
    ensures ValidItems([item] + tail, spec)
  {
  }

  // ----- the accepted command lines

  lemma {:induction false} RenderParses(items: seq<Item>, spec: Spec, flags: seq<Flag>, positionals: seq<string>)
    requires ValidItems(items, spec) && NoneTwice(flags + FlagsOf(items))
    ensures ParseFrom(Render(items), spec, flags, positionals)
      == Ok(flags + FlagsOf(items), positionals + PositionalsOf(items))
    decreases |items|
  {
    if items == [] {
      assert flags + [] == flags && positionals + [] == positionals;
    } else {
      var item, tail := items[0], items[1..];
      assert items == [item] + tail;
      ItemsInFront(item, tail, flags, positionals);
      ReadBack(item, Render(tail), spec);
      if item.Positional? {
        RenderParses(tail, spec, flags, positionals + [item.text]);
      } else {
        FlagIsFree(flags, FlagOf(item), FlagsOf(tail));
        RenderParses(tail, spec, flags + [FlagOf(item)], positionals);
      }
    }
  }

  lemma {:induction false} ParsedIsRender(argv: seq<string>, spec: Spec, flags: seq<Flag>, positionals: seq<string>)
    returns (items: seq<Item>)
    requires NoneTwice(flags) && ParseFrom(argv, spec, flags, positionals).Ok?
    ensures ValidItems(items, spec) && Render(items) == argv && NoneTwice(flags + FlagsOf(items))
    ensures ParseFrom(argv, spec, flags, positionals) == Ok(flags + FlagsOf(items), positionals + PositionalsOf(items))
    decreases |argv|
  {
    if argv == [] {
      items := [];
      assert flags + [] == flags && positionals + [] == positionals;
    } else {
      var item, rest := ReadFront(argv, spec);
      var tail;
      if item.Positional? {
        tail := ParsedIsRender(rest, spec, flags, positionals + [item.text]);
      } else {
        FlagIsNew(flags, FlagOf(item));
        tail := ParsedIsRender(rest, spec, flags + [FlagOf(item)], positionals);
      }
      items := [item] + tail;
      ItemsInFront(item, tail, flags, positionals);
      ValidInFront(item, tail, spec);
    }
  }

  /** These items, no flag twice, are written in this order as this command line. */
  ghost predicate Writes(items: seq<Item>, argv: seq<string>, spec: Spec, flags: seq<Flag>, positionals: seq<string>) {
    && ValidItems(items, spec) && Render(items) == argv
    && NoneTwice(flags) && FlagsOf(items) == flags && PositionalsOf(items) == positionals
  }

  /** A command line is accepted, with these flags and positionals, exactly when it is the text of valid items that say
      so: every token belongs to one item, and no flag comes twice. */
  lemma AcceptedIffWritten(argv: seq<string>, spec: Spec, flags: seq<Flag>, positionals: seq<string>)
    ensures ParseFrom(argv, spec, [], []) == Ok(flags, positionals)
      <==> exists items :: Writes(items, argv, spec, flags, positionals)
  {
    if ParseFrom(argv, spec, [], []) == Ok(flags, positionals) {
      var items := ParsedIsRender(argv, spec, [], []);
      assert [] + FlagsOf(items) == FlagsOf(items) && [] + PositionalsOf(items) == PositionalsOf(items);
      assert Writes(items, argv, spec, flags, positionals);
    }
    if items :| Writes(items, argv, spec, flags, positionals) {
      assert [] + FlagsOf(items) == FlagsOf(items) && [] + PositionalsOf(items) == PositionalsOf(items);
      RenderParses(items, spec, [], []);
    }
  }

  /** No command line can be taken apart in two ways. */
  lemma {:induction false} OneReading(a: seq<Item>, b: seq<Item>, spec: Spec)
    requires ValidItems(a, spec) && ValidItems(b, spec) && Render(a) == Render(b)
    ensures a == b
    decreases |a|
  {
    if a != [] && b != [] {
      ReadBack(a[0], Render(a[1..]), spec);
      ReadBack(b[0], Render(b[1..]), spec);
      OneReading(a[1..], b[1..], spec);
      assert a == [a[0]] + a[1..] && b == [b[0]] + b[1..];
    }
  }

  /** The value a command finds under a name. */
  function ValueOf(flags: seq<Flag>, name: string): Option<FlagValue> {
    if flags == [] then None
    else if flags[0].name == name then Some(flags[0].value)
    else ValueOf(flags[1..], name)
  }

  lemma {:induction false} ValueIsMember(flags: seq<Flag>, name: string, value: FlagValue)
    requires NoneTwice(flags)
    ensures ValueOf(flags, name) == Some(value) <==> Flag(name, value) in flags
  {
    if flags != [] {
      ValueIsMember(flags[1..], name, value);
      assert flags == [flags[0]] + flags[1..];
      assert forall i :: 0 < i < |flags| ==> flags[i].name != flags[0].name;
    }
  }

  /** Two command lines that give the same flags and the same positionals in order are read alike: the flags may stand
      anywhere between the positionals, and a value may be written in either form. */
  lemma OrderAndFormDoNotMatter(a: seq<Item>, b: seq<Item>, spec: Spec, name: string)
    requires ValidItems(a, spec) && NoneTwice(FlagsOf(a)) && ValidItems(b, spec) && NoneTwice(FlagsOf(b))
    requires PositionalsOf(a) == PositionalsOf(b) && forall f :: f in FlagsOf(a) <==> f in FlagsOf(b)
    ensures var (p, q) := (ParseFrom(Render(a), spec, [], []), ParseFrom(Render(b), spec, [], []));
      && p.Ok? && q.Ok? && p.positionals == q.positionals == PositionalsOf(a)
      && ValueOf(p.flags, name) == ValueOf(q.flags, name)
  {
    assert [] + FlagsOf(a) == FlagsOf(a) && [] + FlagsOf(b) == FlagsOf(b);
    RenderParses(a, spec, [], []);
    RenderParses(b, spec, [], []);
    var inA, inB := ValueOf(FlagsOf(a), name), ValueOf(FlagsOf(b), name);
    if inA.Some? {
      ValueIsMember(FlagsOf(a), name, inA.value);
      ValueIsMember(FlagsOf(b), name, inA.value);
    }
    if inB.Some? {
      ValueIsMember(FlagsOf(a), name, inB.value);
      ValueIsMember(FlagsOf(b), name, inB.value);
    }
  }

  // ----- the refused ones

  /** What the rest of a refused command line starts with, by the error it gets, after these flags. */
  ghost predicate AtFault(rest: seq<string>, flags: seq<Flag>, spec: Spec, error: UsageError) {
    rest != [] &&
    match error
    case UnknownOption(option) =>
      || (rest[0] == option && Dashed(option) && !StartsWith(option, "--") && option != "-" && option != "-h")
      || exists name :: option == "--" + name && '=' !in name && spec(name).None?
                        && (rest[0] == option || StartsWith(rest[0], option + "="))
    case TakesNoValue(name) => '=' !in name && spec(name) == Some(Boolean) && StartsWith(rest[0], "--" + name + "=")
    case NeedsValue(name) =>
      && '=' !in name && spec(name) == Some(Text)
      && (|| rest[0] == "--" + name + "="
          || (rest[0] == "--" + name && (|rest| == 1 || rest[1] == "" || Dashed(rest[1]))))
    case Repeated(option) =>
      exists item, after :: ValidItem(item, spec) && !item.Positional? && LabelOf(item) == option
                            && rest == Tokens(item) + after && FlagOf(item).name in NamesOf(flags)
  }

  /** A long option's token is its name, alone or with a value. */
  lemma NameOfToken(arg: string)
    requires StartsWith(arg, "--")
    ensures var equals := IndexOf(arg, '=');
      var name := if equals == -1 then arg[2..] else arg[2..equals];
      '=' !in name && arg == if equals == -1 then "--" + name else "--" + name + "=" + arg[equals + 1..]
  {
    var equals := IndexOf(arg, '=');
    Dashes(arg);
    if equals == -1 {
      NotInPart(arg, 2, |arg|, '=');
    } else {
      CutInThree(arg, 2, equals);
      NotInPart(arg, 2, equals, '=');
    }
  }

  lemma Dashes(arg: string)
    requires StartsWith(arg, "--")
    ensures |arg| >= 2 && arg[0] == arg[1] == '-' && arg[..2] == "--" && arg == "--" + arg[2..] && arg[..|arg|] == arg
  {
  }

  lemma CutInThree(s: string, i: nat, j: nat)
    requires i <= j < |s|
    ensures s == s[..i] + s[i..j] + [s[j]] + s[j + 1..]
  {
  }

  lemma NotInPart(s: string, i: nat, j: nat, c: char)
    requires i <= j <= |s| && c !in s[..j]
    ensures c !in s[i..j]
  {
    assert forall x :: x in s[i..j] ==> x in s[..j];
  }

  /** The token of a long option, by its name and what follows the name. */
  lemma LongFaultIsThere(rest: seq<string>, flags: seq<Flag>, spec: Spec)
    requires rest != [] && StartsWith(rest[0], "--") && ReadItem(rest, spec).Fault?
    ensures AtFault(rest, flags, spec, ReadItem(rest, spec).error)
  {
    var arg := rest[0];
    var equals := IndexOf(arg, '=');
    var name := if equals == -1 then arg[2..] else arg[2..equals];
    NameOfToken(arg);
    if equals != -1 { StartsWithName("--" + name + "=", arg[equals + 1..], arg); }
    match spec(name)
    case None => UnknownIsThere(rest, flags, spec, name);
    case Some(Boolean) => assert AtFault(rest, flags, spec, TakesNoValue(name));
    case Some(Text) => NeedIsThere(rest, flags, spec, name);
  }

  lemma NeedIsThere(rest: seq<string>, flags: seq<Flag>, spec: Spec, name: string)
    requires rest != [] && '=' !in name && spec(name) == Some(Text)
    requires rest[0] == "--" + name + "="
      || (rest[0] == "--" + name && (|rest| == 1 || rest[1] == "" || Dashed(rest[1])))
    ensures AtFault(rest, flags, spec, NeedsValue(name))
  {
  }

  lemma UnknownIsThere(rest: seq<string>, flags: seq<Flag>, spec: Spec, name: string)
    requires rest != [] && '=' !in name && spec(name).None?
    requires rest[0] == "--" + name || StartsWith(rest[0], "--" + name + "=")
    ensures AtFault(rest, flags, spec, UnknownOption("--" + name))
  {
  }

  lemma StartsWithName(front: string, tail: string, arg: string)
    requires arg == front + tail
    ensures StartsWith(arg, front) && (tail == "" ==> arg == front)
  {
  }

  lemma FaultIsThere(rest: seq<string>, flags: seq<Flag>, spec: Spec)
    requires rest != [] && ReadItem(rest, spec).Fault?
    ensures AtFault(rest, flags, spec, ReadItem(rest, spec).error)
  {
    if StartsWith(rest[0], "--") { LongFaultIsThere(rest, flags, spec); }
  }

  /** The command line is refused at its very front. */
  ghost predicate StopsHere(argv: seq<string>, spec: Spec, flags: seq<Flag>) {
    argv != [] &&
    match ReadItem(argv, spec)
    case Fault(_) => true
    case Read(item) => !item.Positional? && FlagOf(item).name in NamesOf(flags)
  }

  lemma FaultAtFront(argv: seq<string>, spec: Spec, flags: seq<Flag>, positionals: seq<string>)
    requires StopsHere(argv, spec, flags)
    ensures ParseFrom(argv, spec, flags, positionals).Err?
    ensures AtFault(argv, flags, spec, ParseFrom(argv, spec, flags, positionals).error)
  {
    if ReadItem(argv, spec).Fault? {
      FaultIsThere(argv, flags, spec);
    } else {
      var item, after := ReadFront(argv, spec);
      assert argv == Tokens(item) + after;
    }
  }

  /** One readable item on, the flags and positionals found so far. */
  lemma GoesOn(argv: seq<string>, spec: Spec, flags: seq<Flag>, positionals: seq<string>)
    returns (item: Item, after: seq<string>, moreFlags: seq<Flag>, morePositionals: seq<string>)
    requires NoneTwice(flags) && argv != [] && !StopsHere(argv, spec, flags)
    ensures ValidItem(item, spec) && argv == Tokens(item) + after && |after| < |argv|
    ensures NoneTwice(moreFlags) && moreFlags == flags + (if item.Positional? then [] else [FlagOf(item)])
    ensures ParseFrom(argv, spec, flags, positionals) == ParseFrom(after, spec, moreFlags, morePositionals)
  {
    item, after := ReadFront(argv, spec);
    moreFlags, morePositionals := flags, positionals;
    if item.Positional? {
      morePositionals := positionals + [item.text];
      assert flags + [] == flags;
    } else {
      FlagIsNew(flags, FlagOf(item));
      moreFlags := flags + [FlagOf(item)];
    }
  }

  lemma {:induction false} ReadUpToStop(argv: seq<string>, spec: Spec, flags: seq<Flag>, positionals: seq<string>)
    returns (items: seq<Item>, rest: seq<string>, found: seq<Flag>, morePositionals: seq<string>)
    requires NoneTwice(flags) && ParseFrom(argv, spec, flags, positionals).Err?
    ensures ValidItems(items, spec) && argv == Render(items) + rest
    ensures found == flags + FlagsOf(items) && NoneTwice(found) && StopsHere(rest, spec, found)
    ensures ParseFrom(argv, spec, flags, positionals) == ParseFrom(rest, spec, found, morePositionals)
    decreases |argv|
  {
    if StopsHere(argv, spec, flags) {
      items, rest, found, morePositionals := [], argv, flags, positionals;
      assert flags + [] == flags;
    } else {
      var item, after, moreFlags, soFar := GoesOn(argv, spec, flags, positionals);
      var tail;
      tail, rest, found, morePositionals := ReadUpToStop(after, spec, moreFlags, soFar);
      items := ItemBefore(item, tail, rest, flags, argv, spec);
    }
  }

  lemma ItemBefore(item: Item, tail: seq<Item>, rest: seq<string>, flags: seq<Flag>, argv: seq<string>, spec: Spec)
    returns (items: seq<Item>)
    requires ValidItem(item, spec) && ValidItems(tail, spec) && argv == Tokens(item) + (Render(tail) + rest)
    ensures ValidItems(items, spec) && argv == Render(items) + rest
    ensures flags + FlagsOf(items) == flags + (if item.Positional? then [] else [FlagOf(item)]) + FlagsOf(tail)
  {
    items := [item] + tail;
    Front(item, tail);
    Assoc(flags, if item.Positional? then [] else [FlagOf(item)], FlagsOf(tail));
    Assoc(Tokens(item), Render(tail), rest);
    ValidInFront(item, tail, spec);
  }

  /** A refused command line is valid up to the token the error is about, and that token has the fault it names. */
  lemma ErrorNamesTheFault(argv: seq<string>, spec: Spec) returns (items: seq<Item>, rest: seq<string>)
    requires ParseFrom(argv, spec, [], []).Err?
    ensures ValidItems(items, spec) && argv == Render(items) + rest && NoneTwice(FlagsOf(items))
    ensures AtFault(rest, FlagsOf(items), spec, ParseFrom(argv, spec, [], []).error)
  {
    var found, positionals;
    items, rest, found, positionals := ReadUpToStop(argv, spec, [], []);
    assert found == FlagsOf(items);
    FaultAtFront(rest, spec, found, positionals);
  }
}
