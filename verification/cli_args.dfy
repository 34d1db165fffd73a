/** Command-line arguments of a tool (src/trade_trace/cli.py, `_parse_kv_args`).

    Scalar coercion and JSON parsing are parameters; a parsed value is a `Json`. */
module CliArgs {
  import opened Outcomes
  import opened SemanticKeys

  /** `schemaFields` are the literal fields of the selected tool's schema, when known. */
  datatype Reader = Reader(coerce: string -> Json, parseJson: string -> Option<Json>, schemaFields: Option<set<string>>)

  datatype ArgError = MalformedJson(flag: string, text: string) | StrayPositional(tokens: seq<string>)

  datatype Pair = Pair(key: string, value: Json)

  predicate IsFlag(token: string) {
    "--" <= token
  }

  function Underscored(s: string): string {
    seq(|s|, i requires 0 <= i < |s| => if s[i] == '-' then '_' else s[i])
  }

  function KeyOf(token: string): string
    requires IsFlag(token)
  {
    Underscored(token[2..])
  }

  const JSON_SUFFIX := "_json"

  predicate IsJsonKey(key: string) {
    |key| >= |JSON_SUFFIX| && key[|key| - |JSON_SUFFIX|..] == JSON_SUFFIX
  }

  /** The suffix is a transport hint unless the schema has such a field. */
  function DomainKey(reader: Reader, key: string): string {
    if IsJsonKey(key) && (reader.schemaFields.None? || key !in reader.schemaFields.value)
    then key[..|key| - |JSON_SUFFIX|] else key
  }

  function ReadValue(reader: Reader, token: string, text: string): Result<Json, ArgError>
    requires IsFlag(token)
  {
    if IsJsonKey(KeyOf(token)) then
      match reader.parseJson(text)
      case None => Err(MalformedJson(token[2..], text))
      case Some(v) => Ok(v)
    else Ok(reader.coerce(text))
  }

  // ---- what the tokens say ----

  datatype Arguments = Arguments(pairs: seq<Pair>, stray: seq<string>)

  /** A flag takes the next token as its value unless that is a flag too; then it means true. */
  function ReadArguments(reader: Reader, tokens: seq<string>): Result<Arguments, ArgError>
    decreases |tokens|
  {
    if tokens == [] then Ok(Arguments([], []))
    else if !IsFlag(tokens[0]) then
      match ReadArguments(reader, tokens[1..])
      case Err(e) => Err(e)
      case Ok(rest) => Ok(Arguments(rest.pairs, [tokens[0]] + rest.stray))
    else
      var key := DomainKey(reader, KeyOf(tokens[0]));
      if |tokens| > 1 && !IsFlag(tokens[1]) then
        match ReadValue(reader, tokens[0], tokens[1])
        case Err(e) => Err(e)
        case Ok(value) =>
          match ReadArguments(reader, tokens[2..])
          case Err(e) => Err(e)
          case Ok(rest) => Ok(Arguments([Pair(key, value)] + rest.pairs, rest.stray))
      else
        match ReadArguments(reader, tokens[1..])
        case Err(e) => Err(e)
        case Ok(rest) => Ok(Arguments([Pair(key, Bool(true))] + rest.pairs, rest.stray))
  }

  /** A repeated flag turns its value into a list, or extends the list it already is. */
  function Accumulate(out: Payload, p: Pair): Payload {
    out[p.key := if p.key !in out then p.value
                 else if out[p.key].Arr? then Arr(out[p.key].items + [p.value])
                 else Arr([out[p.key], p.value])]
  }

  function AccumulateAll(out: Payload, pairs: seq<Pair>): Payload
    decreases |pairs|
  {
    if pairs == [] then out else AccumulateAll(Accumulate(out, pairs[0]), pairs[1..])
  }

  function ParseSpec(reader: Reader, tokens: seq<string>): Result<Payload, ArgError> {
    match ReadArguments(reader, tokens)
    case Err(e) => Err(e)
    case Ok(a) => if a.stray != [] then Err(StrayPositional(a.stray)) else Ok(AccumulateAll(map[], a.pairs))
  }

  /** What is left to do after a part of the tokens was consumed. */
  ghost predicate Remaining(reader: Reader, tokens: seq<string>, i: nat, out: Payload, stray: seq<string>)
    requires i <= |tokens|
  {
    var all, rest := ReadArguments(reader, tokens), ReadArguments(reader, tokens[i..]);
    match rest
    case Err(e) => all == Err(e)
    case Ok(r) => all.Ok? && all.value.stray == stray + r.stray
                  && AccumulateAll(map[], all.value.pairs) == AccumulateAll(out, r.pairs)
  }

  /** `_parse_kv_args`. */
  method ParseKvArgs(reader: Reader, unknown: seq<string>) returns (r: Result<Payload, ArgError>)
    ensures r == ParseSpec(reader, unknown)
  {
    var out: Payload := map[];
    var stray: seq<string> := [];
    var i := 0;
    assert unknown[0..] == unknown;
    while i < |unknown|
      invariant i <= |unknown| && Remaining(reader, unknown, i, out, stray)
    {
      var token := unknown[i];
      assert unknown[i..][1..] == unknown[i + 1..];
      if !IsFlag(token) {
        stray := stray + [token];
        i := i + 1;
        continue;
      }
      var key := DomainKey(reader, KeyOf(token));
      if i + 1 < |unknown| && !IsFlag(unknown[i + 1]) {
        assert unknown[i..][2..] == unknown[i + 2..];
        var value := ReadValue(reader, token, unknown[i + 1]);
        if value.Err? {
          return Err(value.error);
        }
        out := Accumulate(out, Pair(key, value.value));
        i := i + 2;
      } else {
        out := Accumulate(out, Pair(key, Bool(true)));
        i := i + 1;
      }
    }
    assert unknown[i..] == [];
    assert stray + [] == stray;
    if stray != [] {
      return Err(StrayPositional(stray));
    }
    return Ok(out);
  }

  // ---- what accumulation means ----

  function ValuesFor(pairs: seq<Pair>, key: string): seq<Json> {
    if pairs == [] then []
    else (if pairs[0].key == key then [pairs[0].value] else []) + ValuesFor(pairs[1..], key)
  }

  /** The values of one flag, folded together. */
  function Folded(values: seq<Json>): Json
    requires values != []
  {
    if |values| == 1 then values[0]
    else if values[0].Arr? then Arr(values[0].items + values[1..])
    else Arr(values)
  }

  /** What `out` holds for a key, as the values that led to it. */
  ghost predicate Holds(out: Payload, key: string, values: seq<Json>) {
    (key in out <==> values != []) && (values != [] ==> out[key] == Folded(values))
  }

  lemma HoldsNext(out: Payload, key: string, values: seq<Json>, p: Pair)
    requires Holds(out, key, values)
    ensures Holds(Accumulate(out, p), key, if p.key == key then values + [p.value] else values)
  {
    if p.key == key && values != [] {
      var more := values + [p.value];
      assert more[1..] == values[1..] + [p.value];
      if |values| == 1 {
        assert values == [values[0]];
      }
      if values[0].Arr? {
        assert values[0].items + more[1..] == (values[0].items + values[1..]) + [p.value];
        if |values| == 1 {
          assert values[0].items + values[1..] == values[0].items;
        }
      }
    }
  }

  lemma {:induction false} AccumulateHolds(out: Payload, pairs: seq<Pair>, key: string, values: seq<Json>)
    requires Holds(out, key, values)
    ensures Holds(AccumulateAll(out, pairs), key, values + ValuesFor(pairs, key))
    decreases |pairs|
  {
    if pairs == [] {
      assert values + [] == values;
    } else {
      var next := if pairs[0].key == key then values + [pairs[0].value] else values;
      HoldsNext(out, key, values, pairs[0]);
      AccumulateHolds(Accumulate(out, pairs[0]), pairs[1..], key, next);
      assert next + ValuesFor(pairs[1..], key) == values + ValuesFor(pairs, key);
    }
  }

  /** A parsed argument depends on the values of its own flag only, in their order. */
  lemma ArgumentIsItsValues(reader: Reader, tokens: seq<string>, key: string)
    requires ParseSpec(reader, tokens).Ok?
    ensures var values := ValuesFor(ReadArguments(reader, tokens).value.pairs, key);
            var out := ParseSpec(reader, tokens).value;
            (key in out <==> values != []) && (values != [] ==> out[key] == Folded(values))
  {
    var pairs := ReadArguments(reader, tokens).value.pairs;
    AccumulateHolds(map[], pairs, key, []);
    assert [] + ValuesFor(pairs, key) == ValuesFor(pairs, key);
  }

  /** Repeating a flag collects its values in a list exactly when the first value is not a list
      itself; then the others are appended to that one. */
  lemma RepeatedFlagIff(values: seq<Json>)
    requires |values| >= 2
    ensures Folded(values) == Arr(values) <==> !values[0].Arr?
  {
    if values[0].Arr? {
      var items := values[0].items;
      if |items| == 1 {
        assert (items + values[1..])[0] != values[0];
      }
    }
  }

  /** For instance: `--tags-json LIST --tags b`, where LIST reads as `["a"]`, is
      one list of two, not the list of the two values. */
  lemma RepeatedFlagExtends(reader: Reader, text: string)
    requires reader.schemaFields == None && !IsFlag(text)
    requires reader.parseJson(text) == Some(Arr([Str("a")])) && reader.coerce("b") == Str("b")
    ensures var tokens := ["--tags-json", text, "--tags", "b"];
            && ReadArguments(reader, tokens) == Ok(Arguments([Pair("tags", Arr([Str("a")])), Pair("tags", Str("b"))], []))
            && ParseSpec(reader, tokens) == Ok(map["tags" := Arr([Str("a"), Str("b")])])
  {
    var tokens := ["--tags-json", text, "--tags", "b"];
    var first, second := Pair("tags", Arr([Str("a")])), Pair("tags", Str("b"));
    FlagNames(reader);
    assert tokens[2..] == ["--tags", "b"] && ["--tags", "b"][2..] == [];
    assert ReadValue(reader, "--tags", "b") == Ok(Str("b"));
    assert [second] + [] == [second];
    assert ReadArguments(reader, ["--tags", "b"]) == Ok(Arguments([second], []));
    assert ReadValue(reader, "--tags-json", text) == Ok(first.value);
    assert [first] + [second] == [first, second];
    assert [first, second][1..] == [second] && [second][1..] == [];
    assert Accumulate(map[], first) == map["tags" := first.value];
    assert [Str("a")] + [Str("b")] == [Str("a"), Str("b")];
    assert Accumulate(map["tags" := first.value], second) == map["tags" := Arr([Str("a"), Str("b")])];
  }

  lemma FlagNames(reader: Reader)
    requires reader.schemaFields == None
    ensures IsFlag("--tags-json") && IsFlag("--tags") && !IsFlag("b")
    ensures IsJsonKey(KeyOf("--tags-json")) && DomainKey(reader, KeyOf("--tags-json")) == "tags"
    ensures !IsJsonKey(KeyOf("--tags")) && DomainKey(reader, KeyOf("--tags")) == "tags"
  {
    assert KeyOf("--tags-json") == "tags_json";
    assert KeyOf("--tags") == "tags";
    assert "tags_json"[4..] == JSON_SUFFIX && "tags_json"[..4] == "tags";
  }

  // ---- what a command line says ----

  /** How a flag's name becomes a key: dashes as underscores, and the suffix `_json`, which only
      says how the value is written, dropped unless the schema has a field of that name. */
  lemma KeysAre(reader: Reader, name: string, stem: string)
    ensures |Underscored(name)| == |name|
    ensures forall i :: 0 <= i < |name| ==> Underscored(name)[i] == if name[i] == '-' then '_' else name[i]
    ensures DomainKey(reader, stem + "_json")
         == if reader.schemaFields.Some? && stem + "_json" in reader.schemaFields.value then stem + "_json" else stem
    ensures IsJsonKey(name) <==> exists k: nat :: k <= |name| && name == name[..k] + "_json"
    ensures !IsJsonKey(name) ==> DomainKey(reader, name) == name
  {
    var key := stem + "_json";
    assert key[|key| - 5..] == "_json" && key[..|key| - 5] == stem;
    if k: nat :| k <= |name| && name == name[..k] + "_json" {
      assert name[|name| - 5..] == "_json";
    }
    if IsJsonKey(name) {
      assert name == name[..|name| - 5] + "_json";
    }
  }

  /** One thing on a command line: a flag with a value, a flag alone, or a word. */
  datatype Item = Valued(name: string, text: string) | Bare(name: string) | Word(text: string)

  predicate ItemOk(item: Item) {
    match item
    case Valued(_, text) => !IsFlag(text)
    case Bare(_) => true
    case Word(text) => !IsFlag(text)
  }

  /** A word after a bare flag would be its value. */
  predicate WellWritten(items: seq<Item>) {
    && (forall item :: item in items ==> ItemOk(item))
    && (forall i :: 0 <= i < |items| - 1 && items[i].Bare? ==> !items[i + 1].Word?)
  }

  function Tokens(item: Item): seq<string> {
    match item
    case Valued(name, text) => ["--" + name, text]
    case Bare(name) => ["--" + name]
    case Word(text) => [text]
  }

  function CommandLine(items: seq<Item>): seq<string> {
    if items == [] then [] else Tokens(items[0]) + CommandLine(items[1..])
  }

  /** The value of a flag: true alone, else parsed as JSON or coerced, as its name asks. */
  function ValueOf(reader: Reader, item: Item): Option<Json>
    requires !item.Word?
  {
    if item.Bare? then Some(Bool(true))
    else if IsJsonKey(Underscored(item.name)) then reader.parseJson(item.text)
    else Some(reader.coerce(item.text))
  }

  /** What the items come to: the flags' pairs and the stray words, each in order, or the first
      value that should be JSON and is not. */
  function Meaning(reader: Reader, items: seq<Item>): Result<Arguments, ArgError> {
    if items == [] then Ok(Arguments([], []))
    else if items[0].Word? then
      match Meaning(reader, items[1..])
      case Err(e) => Err(e)
      case Ok(rest) => Ok(Arguments(rest.pairs, [items[0].text] + rest.stray))
    else
      match ValueOf(reader, items[0])
      case None => Err(MalformedJson(items[0].name, if items[0].Valued? then items[0].text else ""))
      case Some(v) =>
        match Meaning(reader, items[1..])
        case Err(e) => Err(e)
        case Ok(rest) => Ok(Arguments([Pair(DomainKey(reader, Underscored(items[0].name)), v)] + rest.pairs, rest.stray))
  }

  lemma FirstToken(items: seq<Item>)
    requires items != [] && ItemOk(items[0])
    ensures CommandLine(items) != [] && (IsFlag(CommandLine(items)[0]) <==> !items[0].Word?)
    ensures !items[0].Word? ==> CommandLine(items)[0][2..] == items[0].name
  {
    if !items[0].Word? {
      assert CommandLine(items)[0] == "--" + items[0].name;
    }
  }

  lemma WellWrittenTail(items: seq<Item>)
    requires WellWritten(items) && items != []
    ensures WellWritten(items[1..])
  {
    forall i | 0 <= i < |items[1..]| - 1 && items[1..][i].Bare? ensures !items[1..][i + 1].Word? {
      assert items[1..][i] == items[i + 1] && items[1..][i + 1] == items[i + 2];
    }
    assert forall item :: item in items[1..] ==> item in items;
  }

  /** Reading a command line, token by token, gives what its items mean. */
  lemma {:induction false} CommandLineReads(reader: Reader, items: seq<Item>)
    requires WellWritten(items)
    ensures ReadArguments(reader, CommandLine(items)) == Meaning(reader, items)
  {
    if items != [] {
      var tokens, rest := CommandLine(items), CommandLine(items[1..]);
      assert items[0] in items;
      WellWrittenTail(items);
      CommandLineReads(reader, items[1..]);
      FirstToken(items);
      match items[0] {
        case Valued(name, text) => assert tokens[1] == text && tokens[2..] == rest;
        case Word(text) => assert tokens[1..] == rest;
        case Bare(name) =>
          assert tokens[1..] == rest;
          if |items| > 1 {
            assert items[1] in items;
            FirstToken(items[1..]);
            assert tokens[1] == rest[0];
          }
      }
    }
  }

  predicate Readable(reader: Reader, item: Item) {
    !item.Word? ==> ValueOf(reader, item).Some?
  }

  /** A command line is refused exactly for a value that should be JSON and is not, or else for the
      words on it, all of which are named. */
  lemma {:induction false} RefusedIff(reader: Reader, items: seq<Item>)
    requires WellWritten(items)
    ensures var parsed := ParseSpec(reader, CommandLine(items));
            && (parsed.Err? <==> exists item :: item in items && (item.Word? || !Readable(reader, item)))
            && (parsed.Err? && parsed.error.MalformedJson? <==> exists item :: item in items && !Readable(reader, item))
            && (parsed.Err? && parsed.error.StrayPositional? ==>
                  forall text :: text in parsed.error.tokens <==> Word(text) in items)
  {
    CommandLineReads(reader, items);
    MeaningFails(reader, items);
    var meaning := Meaning(reader, items);
    if meaning.Ok? && meaning.value.stray != [] {
      assert meaning.value.stray[0] in meaning.value.stray;
    }
    if meaning.Ok? {
      if item :| item in items && item.Word? {
        assert item.text in meaning.value.stray;
      }
    }
  }

  lemma {:induction false} MeaningFails(reader: Reader, items: seq<Item>)
    ensures Meaning(reader, items).Err? <==> exists item :: item in items && !Readable(reader, item)
    ensures Meaning(reader, items).Err? ==> Meaning(reader, items).error.MalformedJson?
    ensures Meaning(reader, items).Ok? ==> forall text :: text in Meaning(reader, items).value.stray <==> Word(text) in items
  {
    if items != [] {
      MeaningFails(reader, items[1..]);
      assert items == [items[0]] + items[1..];
      if !Readable(reader, items[0]) {
        assert items[0] in items;
      }
      if item :| item in items && !Readable(reader, item) {
        assert item == items[0] || item in items[1..];
      }
    }
  }

  /** And every list of tokens is a command line. */
  lemma {:induction false} EveryLineIsWritten(tokens: seq<string>) returns (items: seq<Item>)
    ensures WellWritten(items) && CommandLine(items) == tokens
    decreases |tokens|
  {
    items := [];
    if tokens != [] {
      var token := tokens[0];
      if !IsFlag(token) {
        var rest := EveryLineIsWritten(tokens[1..]);
        items := [Word(token)] + rest;
        assert items[1..] == rest;
      } else if |tokens| > 1 && !IsFlag(tokens[1]) {
        var rest := EveryLineIsWritten(tokens[2..]);
        items := [Valued(token[2..], tokens[1])] + rest;
        assert items[1..] == rest && "--" + token[2..] == token;
      } else {
        var rest := EveryLineIsWritten(tokens[1..]);
        items := [Bare(token[2..])] + rest;
        assert items[1..] == rest && "--" + token[2..] == token;
        if rest != [] {
          assert rest[0] in rest;
          FirstToken(rest);
        }
      }
    }
  }

  // ---- simple flags come back ----

  datatype Setting = Setting(key: string, text: string)

  /** A key without dashes that is no JSON hint, and a value that is not a flag. */
  predicate Simple(s: Setting) {
    '-' !in s.key && !IsJsonKey(s.key) && !IsFlag(s.text)
  }

  function Render(settings: seq<Setting>): seq<string> {
    if settings == [] then [] else ["--" + settings[0].key, settings[0].text] + Render(settings[1..])
  }

  function Coerced(reader: Reader, settings: seq<Setting>): seq<Pair> {
    if settings == [] then []
    else [Pair(settings[0].key, reader.coerce(settings[0].text))] + Coerced(reader, settings[1..])
  }

  /** Reading the rendering of simple settings gives back each one, in order. */
  lemma {:induction false} RenderThenRead(reader: Reader, settings: seq<Setting>)
    requires forall s :: s in settings ==> Simple(s)
    ensures ReadArguments(reader, Render(settings)) == Ok(Arguments(Coerced(reader, settings), []))
  {
    if settings != [] {
      var s, tokens := settings[0], Render(settings);
      assert Simple(s);
      RenderThenRead(reader, settings[1..]);
      assert tokens[2..] == Render(settings[1..]);
      assert tokens[0][2..] == s.key && Underscored(s.key) == s.key;
    }
  }
}
