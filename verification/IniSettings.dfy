// The engine's settings file: a printer of sections and fields, and a parser
// that reads them back over default settings.
module IniSettings {
  import opened Seqs
  import opened Wrappers

  datatype Kind = Text | Number | Flag

  datatype Value = TextValue(text: string) | NumberValue(number: nat) | FlagValue(flag: bool)

  datatype Field = Field(name: string, json: string, kind: Kind)

  datatype Section = Section(name: string, fields: seq<Field>)

  // A section without an entry is unset, a nil in the source.
  type Settings = map<string, map<string, Value>>

  datatype Parsed = Ok(settings: Settings) | Error | Crash

  const WIDTH := 0x1_0000_0000

  // ----- Numbers

  function Digit(d: nat): (c: char)
    requires d < 10
    ensures '0' <= c <= '9'
  {
    '0' + d as char
  }

  function Decimal(n: nat): string {
    if n < 10 then [Digit(n)] else Decimal(n / 10) + [Digit(n % 10)]
  }

  predicate AllDigits(s: string) {
    forall i | 0 <= i < |s| :: '0' <= s[i] <= '9'
  }

  function DecimalValue(s: string): (n: int)
    requires AllDigits(s)
    ensures n >= 0
  {
    if s == "" then 0 else DecimalValue(DropLast(s)) * 10 + (s[|s| - 1] as int - '0' as int)
  }

  // strconv.Atoi with its 64 bits.
  function Atoi(s: string): Option<int> {
    var signed := s != "" && (s[0] == '-' || s[0] == '+');
    var digits := if signed then s[1..] else s;
    if digits == "" || !AllDigits(digits) then None
    else
      var n := if signed && s[0] == '-' then -DecimalValue(digits) else DecimalValue(digits);
      if -0x8000_0000_0000_0000 <= n < 0x8000_0000_0000_0000 then Some(n) else None
  }

  lemma {:induction false} DecimalDigits(n: nat)
    ensures Decimal(n) != "" && AllDigits(Decimal(n)) && DecimalValue(Decimal(n)) == n
  {
    if n < 10 {
      assert DropLast(Decimal(n)) == "";
    } else {
      DecimalDigits(n / 10);
      assert DropLast(Decimal(n)) == Decimal(n / 10);
    }
  }

  lemma {:induction false} AtoiReadsDecimal(n: nat)
    requires n < WIDTH
    ensures Atoi(Decimal(n)) == Some(n)
  {
    DecimalDigits(n);
    assert Decimal(n)[0] in Decimal(n);
  }

  // ----- Pieces of text

  predicate Blank(c: char) {
    c == ' ' || c == '\t' || c == '\n' || c == '\r'
  }

  datatype Read = NotFound | Read(text: string, rest: string)

  function ReadUntil(s: string, stop: char): (r: Read)
    ensures r.Read? ==> |r.rest| < |s|
  {
    if s == "" then NotFound
    else if s[0] == stop then Read("", s[1..])
    else
      match ReadUntil(s[1..], stop)
      case NotFound => NotFound
      case Read(text, rest) => Read([s[0]] + text, rest)
  }

  function SkipBlanks(s: string): (r: string)
    ensures |r| <= |s|
    ensures r == "" || !Blank(r[0])
  {
    if s != "" && Blank(s[0]) then SkipBlanks(s[1..]) else s
  }

  function Cut(s: string, c: char): string {
    match ReadUntil(s, c)
    case NotFound => s
    case Read(text, _) => text
  }

  function TrimRight(s: string): string {
    if s != "" && Blank(s[|s| - 1]) then TrimRight(DropLast(s)) else s
  }

  function Trim(s: string): string {
    TrimRight(SkipBlanks(s))
  }

  lemma {:induction false} ReadUntilAt(a: string, stop: char, rest: string)
    requires stop !in a
    ensures ReadUntil(a + [stop] + rest, stop) == Read(a, rest)
  {
    var s := a + [stop] + rest;
    if a == "" {
      assert s[1..] == rest;
    } else {
      assert s[1..] == a[1..] + [stop] + rest;
      ReadUntilAt(a[1..], stop, rest);
      HeadAndTail(a);
    }
  }

  lemma {:induction false} NotThere(a: string, stop: char)
    requires stop !in a
    ensures ReadUntil(a, stop) == NotFound
  {
    if a != "" {
      NotThere(a[1..], stop);
    }
  }

  // ----- Setting a field

  function FindByJson(fields: seq<Field>, key: string): Option<Field> {
    if fields == [] then None
    else if fields[0].json == key then Some(fields[0])
    else FindByJson(fields[1..], key)
  }

  function FindByName(fields: seq<Field>, key: string): Option<Field> {
    if fields == [] then None
    else if fields[0].name == key then Some(fields[0])
    else FindByName(fields[1..], key)
  }

  // A key is a field's name, or else the name it has in JSON.
  function FindField(fields: seq<Field>, key: string): Option<Field> {
    match FindByName(fields, key)
    case Some(f) => Some(f)
    case None => FindByJson(fields, key)
  }

  function FindSection(schema: seq<Section>, title: string): Option<Section> {
    if schema == [] then None
    else if schema[0].name == title then Some(schema[0])
    else FindSection(schema[1..], title)
  }

  function ReadValue(kind: Kind, text: string): Option<Value> {
    match kind
    case Text => Some(TextValue(text))
    case Number => (match Atoi(text) case None => None case Some(n) => Some(NumberValue(n % WIDTH)))
    case Flag => (match Atoi(text) case None => None case Some(n) => Some(FlagValue(n > 0)))
  }

  function Values(settings: Settings, section: string): map<string, Value> {
    if section in settings then settings[section] else map[]
  }

  function Assign(settings: Settings, section: Section, key: string, text: string): Settings {
    match FindField(section.fields, key)
    case None => settings
    case Some(f) =>
      match ReadValue(f.kind, text)
      case None => settings
      case Some(v) => settings[section.name := Values(settings, section.name)[f.name := v]]
  }

  function Zero(kind: Kind): Value {
    match kind case Text => TextValue("") case Number => NumberValue(0) case Flag => FlagValue(false)
  }

  function ZeroValues(fields: seq<Field>): map<string, Value> {
    if fields == [] then map[]
    else
      var field := fields[|fields| - 1];
      ZeroValues(DropLast(fields))[field.name := Zero(field.kind)]
  }

  function Enter(settings: Settings, section: Section): Settings {
    if section.name in settings then settings else settings[section.name := ZeroValues(section.fields)]
  }

  function LineValue(text: string): string {
    Trim(Cut(Cut(text, '#'), ';'))
  }

  // ----- The parser

  function Parse(schema: seq<Section>, s: string, section: Option<Section>, settings: Settings): Parsed
    decreases |s|
  {
    if s == "" then Ok(settings)
    else if s[0] == '[' then
      match ReadUntil(s[1..], ']')
      case NotFound => Error
      case Read(title, rest) =>
        match FindSection(schema, title)
        case None => Parse(schema, SkipBlanks(rest), None, settings)
        case Some(found) =>
          if SkipBlanks(rest) == "" then Error
          else Parse(schema, SkipBlanks(rest), Some(found), Enter(settings, found))
    else if s[0] == '#' || s[0] == ';' then
      match ReadUntil(s[1..], '\n')
      case NotFound => Error
      case Read(_, rest) => Parse(schema, rest, section, settings)
    else if Blank(s[0]) then Parse(schema, SkipBlanks(s[1..]), section, settings)
    else
      match ReadUntil(s, '\n')
      case NotFound => Ok(settings)
      case Read(line, rest) =>
        if section == None then Error
        else
          match ReadUntil(line, '=')
          case NotFound => Crash
          case Read(key, text) =>
            Parse(schema, rest, section, Assign(settings, section.value, Trim(key), LineValue(text)))
  }

  // A reader of runes that can take back the last one.
  class RuneScanner {
    const text: string
    var pos: nat

    constructor (text: string)
      ensures this.text == text && pos == 0
    {
      this.text, pos := text, 0;
    }

    ghost predicate Valid()
      reads this
    {
      pos <= |text|
    }

    ghost function Rest(): string
      requires Valid()
      reads this
    {
      text[pos..]
    }

    method ReadRune() returns (c: Option<char>)
      requires Valid()
      modifies this
      ensures Valid()
      ensures old(Rest()) == "" ==> c == None && Rest() == ""
      ensures old(Rest()) != "" ==> c == Some(old(Rest())[0]) && Rest() == old(Rest())[1..] && pos == old(pos) + 1
    {
      if pos == |text| {
        return None;
      }
      c := Some(text[pos]);
      pos := pos + 1;
    }

    method UnreadRune()
      requires Valid() && pos > 0
      modifies this
      ensures Valid() && pos == old(pos) - 1 && Rest() == [text[pos]] + old(Rest())
    {
      pos := pos - 1;
    }

    method ReadTo(stop: char) returns (found: bool, buffer: string)
      requires Valid()
      modifies this
      ensures Valid()
      ensures if found then ReadUntil(old(Rest()), stop) == Read(buffer, Rest())
              else ReadUntil(old(Rest()), stop) == NotFound && Rest() == ""
    {
      buffer := "";
      ghost var start := Rest();
      while true
        invariant Valid()
        invariant stop !in buffer && start == buffer + Rest()
        decreases |text| - pos
      {
        ghost var before := Rest();
        var c := ReadRune();
        match c {
          case None =>
            assert start == buffer;
            NotThere(buffer, stop);
            return false, buffer;
          case Some(r) =>
            assert before == [r] + Rest();
            if r == stop {
              assert start == buffer + [stop] + Rest();
              ReadUntilAt(buffer, stop, Rest());
              return true, buffer;
            }
            Associative(buffer, [r], Rest());
            buffer := buffer + [r];
        }
      }
    }

    method SkipWhitespace() returns (more: bool)
      requires Valid()
      modifies this
      ensures Valid() && Rest() == SkipBlanks(old(Rest())) && (more <==> Rest() != "")
    {
      while true
        invariant Valid() && SkipBlanks(Rest()) == SkipBlanks(old(Rest()))
        decreases |text| - pos
      {
        var c := ReadRune();
        match c {
          case None => return false;
          case Some(r) =>
            if !Blank(r) {
              UnreadRune();
              return true;
            }
        }
      }
    }
  }

  method ParseFile(schema: seq<Section>, f: RuneScanner, defaults: Settings) returns (parsed: Parsed)
    requires f.Valid()
    modifies f
    ensures parsed == Parse(schema, old(f.Rest()), None, defaults)
  {
    var settings: Settings, section: Option<Section> := defaults, None;
    while true
      invariant f.Valid()
      invariant Parse(schema, f.Rest(), section, settings) == Parse(schema, old(f.Rest()), None, defaults)
      decreases |f.text| - f.pos
    {
      ghost var s := f.Rest();
      var c := f.ReadRune();
      match c {
        case None => return Ok(settings);
        case Some(first) =>
          if first == '[' {
            var found, title := f.ReadTo(']');
            if !found {
              return Error;
            }
            match FindSection(schema, title) {
              case None =>
                var more := f.SkipWhitespace();
                section := None;
              case Some(s) =>
                settings, section := Enter(settings, s), Some(s);
                var more := f.SkipWhitespace();
                if !more {
                  return Error;
                }
            }
          } else if first == '#' || first == ';' {
            var found, comment := f.ReadTo('\n');
            if !found {
              return Error;
            }
          } else if Blank(first) {
            var more := f.SkipWhitespace();
            if !more {
              return Ok(settings);
            }
          } else {
            f.UnreadRune();
            assert f.Rest() == s;
            var found, line := f.ReadTo('\n');
            if !found {
              return Ok(settings);
            }
            if section == None {
              return Error;
            }
            match ReadUntil(line, '=') {
              case NotFound => return Crash;
              case Read(key, text) => settings := Assign(settings, section.value, Trim(key), LineValue(text));
            }
          }
      }
    }
  }

  // ----- The printer

  function ShowValue(v: Value): string {
    match v
    case TextValue(text) => text
    case NumberValue(n) => Decimal(n)
    case FlagValue(flag) => if flag then "1" else "0"
  }

  function ShowFields(fields: seq<Field>, values: map<string, Value>): string
    requires forall f | f in fields :: f.name in values
  {
    if fields == [] then ""
    else ShowFields(DropLast(fields), values) + ShowLine(fields[|fields| - 1].name, values[fields[|fields| - 1].name])
  }

  function ShowLine(name: string, v: Value): string {
    name + "=" + ShowValue(v) + "\n"
  }

  // Every section of the settings has the fields that the schema gives it.
  ghost predicate Complete(schema: seq<Section>, settings: Settings) {
    forall s | s in schema && s.name in settings :: FieldsMatch(s.fields, settings[s.name])
  }

  ghost predicate FieldsMatch(fields: seq<Field>, values: map<string, Value>) {
    forall f | f in fields :: f.name in values && KindOf(values[f.name]) == f.kind
  }

  function KindOf(v: Value): Kind {
    match v case TextValue(_) => Text case NumberValue(_) => Number case FlagValue(_) => Flag
  }

  // The first sections of the schema, printed behind first unexported fields.
  function Show(schema: seq<Section>, settings: Settings, first: nat): string
    requires Complete(schema, settings)
  {
    if schema == [] then ""
    else
      var s := schema[|schema| - 1];
      Show(DropLast(schema), settings, first) +
      if s.name in settings then ShowSection(s, settings[s.name], first + |schema| - 1 > 0) else ""
  }

  function ShowSection(s: Section, values: map<string, Value>, gap: bool): string
    requires FieldsMatch(s.fields, values)
  {
    (if gap then "\n" else "") + "[" + s.name + "]\n" + ShowFields(s.fields, values)
  }

  method SaveFields(fields: seq<Field>, values: map<string, Value>, start: string) returns (buffer: string)
    requires FieldsMatch(fields, values)
    ensures buffer == start + ShowFields(fields, values)
  {
    buffer := start;
    assert start + "" == start;
    for f := 0 to |fields|
      invariant buffer == start + ShowFields(fields[..f], values)
    {
      assert DropLast(fields[..f + 1]) == fields[..f];
      var field := fields[f];
      LineInParts(buffer, field.name, ShowValue(values[field.name]));
      Associative(start, ShowFields(fields[..f], values), ShowLine(field.name, values[field.name]));
      buffer := buffer + field.name + "=";
      match values[field.name] {
        case TextValue(text) => buffer := buffer + text;
        case NumberValue(n) => buffer := buffer + Decimal(n);
        case FlagValue(flag) => buffer := buffer + if flag then "1" else "0";
      }
      buffer := buffer + "\n";
    }
    TakeAll(fields);
  }

  lemma LineInParts(buffer: string, name: string, text: string)
    ensures buffer + name + "=" + text + "\n" == buffer + (name + "=" + text + "\n")
  {
  }

  method SaveSection(s: Section, values: map<string, Value>, gap: bool, start: string) returns (buffer: string)
    requires FieldsMatch(s.fields, values)
    ensures buffer == start + ShowSection(s, values, gap)
  {
    buffer := start;
    HeaderInParts(buffer, gap, s.name, ShowFields(s.fields, values));
    if gap {
      buffer := buffer + "\n";
    }
    buffer := SaveFields(s.fields, values, buffer + ("[" + s.name + "]\n"));
  }

  method SaveSettings(schema: seq<Section>, settings: Settings, first: nat) returns (buffer: string)
    requires Complete(schema, settings)
    ensures buffer == Show(schema, settings, first)
  {
    buffer := "";
    for idx := 0 to |schema|
      invariant buffer == Show(schema[..idx], settings, first)
    {
      assert DropLast(schema[..idx + 1]) == schema[..idx];
      var s := schema[idx];
      if s.name in settings {
        buffer := SaveSection(s, settings[s.name], first + idx > 0, buffer);
      } else {
        assert buffer + "" == buffer;
      }
    }
    TakeAll(schema);
  }

  lemma HeaderInParts(buffer: string, gap: bool, name: string, body: string)
    ensures (if gap then buffer + "\n" else buffer) + ("[" + name + "]\n") + body ==
            buffer + ((if gap then "\n" else "") + "[" + name + "]\n" + body)
  {
  }

  // ----- Parsing what was printed

  // A name as the language allows it for a field.
  ghost predicate IsName(s: string) {
    s != "" && forall i | 0 <= i < |s| ::
      !Blank(s[i]) && s[i] != '[' && s[i] != ']' && s[i] != '=' && s[i] != '#' && s[i] != ';'
  }

  ghost predicate Printable(v: Value) {
    match v
    case TextValue(text) => '\n' !in text && '#' !in text && ';' !in text && Trim(text) == text
    case NumberValue(n) => n < WIDTH
    case FlagValue(_) => true
  }

  ghost predicate GoodFields(fields: seq<Field>) {
    && (forall i | 0 <= i < |fields| :: IsName(fields[i].name))
    && (forall i, j | 0 <= i < j < |fields| :: fields[i].name != fields[j].name)
  }

  ghost predicate GoodSchema(schema: seq<Section>) {
    && (forall i | 0 <= i < |schema| :: IsName(schema[i].name) && GoodFields(schema[i].fields))
    && (forall i, j | 0 <= i < j < |schema| :: schema[i].name != schema[j].name)
  }

  lemma {:induction false} FindsField(fields: seq<Field>, i: nat)
    requires i < |fields| && forall j, k | 0 <= j < k < |fields| :: fields[j].name != fields[k].name
    ensures FindByName(fields, fields[i].name) == Some(fields[i])
  {
    if i > 0 {
      FindsField(fields[1..], i - 1);
    }
  }

  lemma {:induction false} FindsSection(schema: seq<Section>, i: nat)
    requires i < |schema| && forall j, k | 0 <= j < k < |schema| :: schema[j].name != schema[k].name
    ensures FindSection(schema, schema[i].name) == Some(schema[i])
  {
    if i > 0 {
      FindsSection(schema[1..], i - 1);
    }
  }

  lemma NotBlankAtEnds(s: string)
    requires s == "" || (!Blank(s[0]) && !Blank(s[|s| - 1]))
    ensures Trim(s) == s
  {
  }

  lemma {:induction false} ShownValue(v: Value)
    requires Printable(v)
    ensures var s := ShowValue(v);
            '\n' !in s && LineValue(s) == s && ReadValue(KindOf(v), s) == Some(v)
  {
    match v {
      case TextValue(text) =>
        NotThere(text, '#');
        NotThere(text, ';');
      case NumberValue(n) =>
        ShownNumber(n);
        assert n % WIDTH == n;
        assert ReadValue(Number, Decimal(n)) == Some(NumberValue(n));
      case FlagValue(flag) =>
        var n := if flag then 1 else 0;
        ShownNumber(n);
        assert ShowValue(v) == Decimal(n);
        assert ReadValue(Flag, Decimal(n)) == Some(FlagValue(n > 0));
    }
  }

  lemma ShownNumber(n: nat)
    requires n < WIDTH
    ensures var s := Decimal(n); '\n' !in s && LineValue(s) == s && Atoi(s) == Some(n)
  {
    AtoiReadsDecimal(n);
    DecimalDigits(n);
    OnlyDigits(Decimal(n));
    NotThere(Decimal(n), '#');
    NotThere(Decimal(n), ';');
  }

  lemma OnlyDigits(s: string)
    requires s != "" && AllDigits(s)
    ensures '\n' !in s && '#' !in s && ';' !in s && Trim(s) == s
  {
  }

  lemma {:induction false} ParseLine(schema: seq<Section>, section: Section, f: Field, v: Value, rest: string,
                                     settings: Settings)
    requires FindByName(section.fields, f.name) == Some(f) && IsName(f.name) && Printable(v) && KindOf(v) == f.kind
    ensures Parse(schema, ShowLine(f.name, v) + rest, Some(section), settings) ==
            Parse(schema, rest, Some(section),
                  settings[section.name := Values(settings, section.name)[f.name := v]])
  {
    var text, name := ShowValue(v), f.name;
    ShownValue(v);
    var line := name + ['='] + text;
    assert ShowLine(name, v) + rest == line + ['\n'] + rest;
    assert line[0] == name[0];
    assert '\n' !in name && '=' !in name;
    ParseOrdinaryLine(schema, section, line, rest, settings);
    ReadUntilAt(name, '=', text);
    NotBlankAtEnds(name);
  }

  lemma ParseOrdinaryLine(schema: seq<Section>, section: Section, line: string, rest: string, settings: Settings)
    requires line != "" && !Blank(line[0]) && line[0] != '[' && line[0] != '#' && line[0] != ';' && '\n' !in line
    ensures Parse(schema, line + ['\n'] + rest, Some(section), settings) ==
            match ReadUntil(line, '=')
            case NotFound => Crash
            case Read(key, text) =>
              Parse(schema, rest, Some(section), Assign(settings, section, Trim(key), LineValue(text)))
  {
    assert (line + ['\n'] + rest)[0] == line[0];
    ReadUntilAt(line, '\n', rest);
  }

  function Overlay(m: map<string, Value>, fields: seq<Field>, values: map<string, Value>): map<string, Value>
    requires forall f | f in fields :: f.name in values
  {
    if fields == [] then m
    else
      var last := fields[|fields| - 1].name;
      Overlay(m, DropLast(fields), values)[last := values[last]]
  }

  ghost predicate AllPrintable(values: map<string, Value>) {
    forall k | k in values :: Printable(values[k])
  }

  lemma {:induction false} ParseFields(schema: seq<Section>, section: Section, n: nat, values: map<string, Value>,
                                       rest: string, settings: Settings)
    requires n <= |section.fields| && GoodFields(section.fields) && FieldsMatch(section.fields, values)
    requires AllPrintable(values) && section.name in settings
    ensures Parse(schema, ShowFields(section.fields[..n], values) + rest, Some(section), settings) ==
            Parse(schema, rest, Some(section),
                  settings[section.name := Overlay(settings[section.name], section.fields[..n], values)])
  {
    if n == 0 {
      assert "" + rest == rest && settings[section.name := settings[section.name]] == settings;
    } else {
      var front, f := section.fields[..n - 1], section.fields[n - 1];
      assert DropLast(section.fields[..n]) == front;
      var v := values[f.name];
      Associative(ShowFields(front, values), ShowLine(f.name, v), rest);
      ParseFields(schema, section, n - 1, values, ShowLine(f.name, v) + rest, settings);
      FindsField(section.fields, n - 1);
      var front' := Overlay(settings[section.name], front, values);
      ParseLine(schema, section, f, v, rest, settings[section.name := front']);
      UpdateTwice(settings, section.name, front', front'[f.name := v]);
    }
  }

  lemma UpdateTwice(settings: Settings, name: string, a: map<string, Value>, b: map<string, Value>)
    ensures settings[name := a][name := b] == settings[name := b]
  {
  }

  ghost predicate Exactly(fields: seq<Field>, values: map<string, Value>) {
    forall k :: k in values <==> HasField(fields, k)
  }

  ghost predicate HasField(fields: seq<Field>, k: string) {
    exists i :: 0 <= i < |fields| && fields[i].name == k
  }

  lemma HasFieldOneMore(fields: seq<Field>, k: string)
    requires fields != []
    ensures HasField(fields, k) <==> HasField(DropLast(fields), k) || fields[|fields| - 1].name == k
  {
  }

  lemma {:induction false} OverlayIs(m: map<string, Value>, fields: seq<Field>, values: map<string, Value>, k: string)
    requires forall f | f in fields :: f.name in values
    ensures var o := Overlay(m, fields, values);
            && (k in o <==> k in m || HasField(fields, k))
            && (HasField(fields, k) ==> k in values && o[k] == values[k])
            && (k in m && !HasField(fields, k) ==> o[k] == m[k])
  {
    if fields != [] {
      OverlayIs(m, DropLast(fields), values, k);
      HasFieldOneMore(fields, k);
    }
  }

  lemma OverlayAll(m: map<string, Value>, fields: seq<Field>, values: map<string, Value>)
    requires Exactly(fields, m) && Exactly(fields, values)
    ensures (forall f | f in fields :: f.name in values) && Overlay(m, fields, values) == values
  {
    forall f | f in fields ensures f.name in values {
      var i :| 0 <= i < |fields| && fields[i] == f;
      assert fields[i].name == f.name;
    }
    forall k ensures k in Overlay(m, fields, values) <==> k in values
      ensures k in values ==> Overlay(m, fields, values)[k] == values[k]
    {
      OverlayIs(m, fields, values, k);
    }
  }

  lemma {:induction false} ZeroIsExact(fields: seq<Field>)
    ensures Exactly(fields, ZeroValues(fields))
  {
    if fields != [] {
      ZeroIsExact(DropLast(fields));
      forall k ensures k in ZeroValues(fields) <==> HasField(fields, k) {
        HasFieldOneMore(fields, k);
      }
    }
  }

  lemma ParseAfterBlanks(schema: seq<Section>, s: string, section: Option<Section>,
                         settings: Settings)
    ensures Parse(schema, SkipBlanks(s), section, settings) == Parse(schema, s, section, settings)
  {
  }

  lemma {:induction false} ParseHeader(schema: seq<Section>, section: Section, gap: bool, body: string,
                                       before: Option<Section>, settings: Settings)
    requires FindSection(schema, section.name) == Some(section) && IsName(section.name)
    ensures Parse(schema, (if gap then "\n" else "") + "[" + section.name + "]\n" + body, before, settings) ==
            if SkipBlanks(body) == "" then Error else Parse(schema, body, Some(section), Enter(settings, section))
    ensures SkipBlanks((if gap then "\n" else "") + "[" + section.name + "]\n" + body) != ""
  {
    var s := "[" + section.name + "]\n" + body;
    var t := (if gap then "\n" else "") + "[" + section.name + "]\n" + body;
    assert gap ==> t == ['\n'] + s && t[1..] == s;
    assert !gap ==> t == s;
    assert s[0] == '[';
    ParseAfterBlanks(schema, t, before, settings);
    assert SkipBlanks(t) == s;
    assert s[1..] == section.name + [']'] + ("\n" + body);
    ReadUntilAt(section.name, ']', "\n" + body);
    assert ("\n" + body)[1..] == body;
    ParseAfterBlanks(schema, body, Some(section), Enter(settings, section));
  }

  // A line in a section that has no value stops the program: its second part is
  // read although there is none.
  lemma {:induction false} LineWithoutValueCrashes(schema: seq<Section>, section: Section, line: string, rest: string,
                                                   settings: Settings)
    requires line != "" && !Blank(line[0]) && line[0] != '[' && line[0] != '#' && line[0] != ';'
    requires '\n' !in line && '=' !in line
    ensures Parse(schema, line + ['\n'] + rest, Some(section), settings) == Crash
  {
    ParseOrdinaryLine(schema, section, line, rest, settings);
    NotThere(line, '=');
  }

  // ----- The round trip

  // The printed sections so far, over the defaults.
  function Merged(schema: seq<Section>, settings: Settings, defaults: Settings): Settings {
    if schema == [] then defaults
    else
      var before, name := Merged(DropLast(schema), settings, defaults), schema[|schema| - 1].name;
      if name in settings then before[name := settings[name]] else before
  }

  function LastPrinted(schema: seq<Section>, settings: Settings): Option<Section> {
    if schema == [] then None
    else if schema[|schema| - 1].name in settings then Some(schema[|schema| - 1])
    else LastPrinted(DropLast(schema), settings)
  }

  ghost predicate Fits(schema: seq<Section>, settings: Settings) {
    forall i | 0 <= i < |schema| && schema[i].name in settings :: Exactly(schema[i].fields, settings[schema[i].name])
  }

  ghost predicate PrintableSettings(settings: Settings) {
    forall name | name in settings :: AllPrintable(settings[name])
  }

  lemma {:induction false} MergedFits(schema: seq<Section>, n: nat, settings: Settings, defaults: Settings)
    requires n <= |schema| && Fits(schema, settings) && Fits(schema, defaults)
    requires forall i, j | 0 <= i < j < |schema| :: schema[i].name != schema[j].name
    ensures Fits(schema, Merged(schema[..n], settings, defaults))
  {
    if n > 0 {
      assert DropLast(schema[..n]) == schema[..n - 1];
      MergedFits(schema, n - 1, settings, defaults);
    }
  }

  lemma {:induction false} ParseShown(schema: seq<Section>, n: nat, settings: Settings, first: nat, rest: string,
                                      defaults: Settings)
    requires n <= |schema| && GoodSchema(schema) && Complete(schema, settings) && PrintableSettings(settings)
    requires Fits(schema, settings) && Fits(schema, defaults)
    ensures var last := LastPrinted(schema[..n], settings);
            Parse(schema, Show(schema[..n], settings, first) + rest, None, defaults) ==
            if last.Some? && last.value.fields == [] && SkipBlanks(rest) == "" then Error
            else Parse(schema, rest, last, Merged(schema[..n], settings, defaults))
  {
    if n == 0 {
      assert "" + rest == rest;
    } else {
      var s := schema[n - 1];
      var front := schema[..n - 1];
      assert DropLast(schema[..n]) == front;
      if s.name in settings {
        var shown := ShowSection(s, settings[s.name], first + n - 1 > 0);
        Associative(Show(front, settings, first), shown, rest);
        ParseShown(schema, n - 1, settings, first, shown + rest, defaults);
        MergedFits(schema, n - 1, settings, defaults);
        ParseSection(schema, n - 1, settings[s.name], first + n - 1 > 0, rest, LastPrinted(front, settings),
                     Merged(front, settings, defaults));
      } else {
        assert Show(front, settings, first) + "" == Show(front, settings, first);
        ParseShown(schema, n - 1, settings, first, rest, defaults);
      }
    }
  }

  lemma {:induction false} ParseSection(schema: seq<Section>, i: nat, values: map<string, Value>, gap: bool,
                                        rest: string, before: Option<Section>, settings: Settings)
    requires i < |schema| && GoodSchema(schema) && FieldsMatch(schema[i].fields, values) && AllPrintable(values)
    requires Exactly(schema[i].fields, values) && Fits(schema, settings)
    ensures var s := schema[i];
            && Parse(schema, ShowSection(s, values, gap) + rest, before, settings) ==
               (if s.fields == [] && SkipBlanks(rest) == "" then Error
                else Parse(schema, rest, Some(s), settings[s.name := values]))
            && SkipBlanks(ShowSection(s, values, gap) + rest) != ""
  {
    var s := schema[i];
    var body := ShowFields(s.fields, values) + rest;
    FindsSection(schema, i);
    ParseHeader(schema, s, gap, body, before, settings);
    Associative((if gap then "\n" else "") + "[" + s.name + "]\n", ShowFields(s.fields, values), rest);
    var entered := Enter(settings, s);
    ZeroIsExact(s.fields);
    TakeAll(s.fields);
    ParseFields(schema, s, |s.fields|, values, rest, entered);
    OverlayAll(entered[s.name], s.fields, values);
    EnterAndSet(settings, s, values);
    if s.fields == [] {
      assert body == rest;
    } else {
      BodyStarts(s.fields, values, rest);
    }
  }

  lemma EnterAndSet(settings: Settings, s: Section, values: map<string, Value>)
    ensures Enter(settings, s)[s.name := values] == settings[s.name := values]
  {
  }

  // A section with fields does not look like the end of the file.
  lemma {:induction false} BodyStarts(fields: seq<Field>, values: map<string, Value>, rest: string)
    requires fields != [] && GoodFields(fields) && FieldsMatch(fields, values)
    ensures ShowFields(fields, values) + rest != "" && SkipBlanks(ShowFields(fields, values) + rest) != ""
  {
    var last := fields[|fields| - 1];
    var line := ShowLine(last.name, values[last.name]);
    if |fields| > 1 {
      BodyStarts(DropLast(fields), values, line + rest);
      Associative(ShowFields(DropLast(fields), values), line, rest);
    } else {
      assert DropLast(fields) == [] && "" + line == line;
      assert (line + rest)[0] == last.name[0];
    }
  }

  lemma {:induction false} MergedIs(schema: seq<Section>, settings: Settings, defaults: Settings)
    requires forall name | name in settings :: exists i :: 0 <= i < |schema| && schema[i].name == name
    ensures Merged(schema, settings, defaults) == defaults + settings
  {
    forall name
      ensures name in Merged(schema, settings, defaults) <==> name in defaults || name in settings
      ensures name in settings ==> Merged(schema, settings, defaults)[name] == settings[name]
      ensures name in defaults && name !in settings ==> Merged(schema, settings, defaults)[name] == defaults[name]
    {
      MergedAt(schema, settings, defaults, name);
    }
  }

  lemma {:induction false} MergedAt(schema: seq<Section>, settings: Settings, defaults: Settings, name: string)
    ensures var m := Merged(schema, settings, defaults);
            var shown := name in settings && exists i :: 0 <= i < |schema| && schema[i].name == name;
            && (name in m <==> name in defaults || shown)
            && (name in m ==> m[name] == if shown then settings[name] else defaults[name])
  {
    if schema != [] {
      MergedAt(DropLast(schema), settings, defaults, name);
      if i :| 0 <= i < |schema| && schema[i].name == name {
        assert i < |schema| - 1 ==> DropLast(schema)[i].name == name;
      }
      if i :| 0 <= i < |DropLast(schema)| && DropLast(schema)[i].name == name {
        assert schema[i].name == name;
      }
    }
  }

  // Parsing printed settings gives those settings, over the defaults for the
  // sections that were not printed, unless the last printed section is empty.
  lemma {:induction false} RoundTrip(schema: seq<Section>, settings: Settings, first: nat, defaults: Settings)
    requires GoodSchema(schema) && Complete(schema, settings) && PrintableSettings(settings)
    requires Fits(schema, settings) && Fits(schema, defaults)
    requires forall name | name in settings :: exists i :: 0 <= i < |schema| && schema[i].name == name
    ensures var last := LastPrinted(schema, settings);
            Parse(schema, Show(schema, settings, first), None, defaults) ==
            if last.Some? && last.value.fields == [] then Error else Ok(defaults + settings)
    ensures defaults.Keys <= settings.Keys ==> defaults + settings == settings
  {
    var shown := Show(schema, settings, first);
    assert shown + "" == shown;
    TakeAll(schema);
    ParseShown(schema, |schema|, settings, first, "", defaults);
    MergedIs(schema, settings, defaults);
  }
}
