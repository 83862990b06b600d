// For which texts the parser of the settings file crashes.
module IniCrash {
  import opened Wrappers
  import opened IniSettings

  // How the parser cuts a text, whatever the schema: headers, which may stand at
  // the end of the text, comments and lines; and what is not ended.
  datatype Token =
    | Header(title: string, atEnd: bool)
    | Comment
    | Line(text: string)
    | OpenHeader
    | OpenComment
    | OpenLine

  function Tokens(s: string): seq<Token>
    decreases |s|
  {
    if s == "" then []
    else if s[0] == '[' then
      match ReadUntil(s[1..], ']')
      case NotFound => [OpenHeader]
      case Read(title, rest) => [Header(title, SkipBlanks(rest) == "")] + Tokens(SkipBlanks(rest))
    else if s[0] == '#' || s[0] == ';' then
      match ReadUntil(s[1..], '\n')
      case NotFound => [OpenComment]
      case Read(_, rest) => [Comment] + Tokens(rest)
    else if Blank(s[0]) then Tokens(SkipBlanks(s[1..]))
    else
      match ReadUntil(s, '\n')
      case NotFound => [OpenLine]
      case Read(line, rest) => [Line(line)] + Tokens(rest)
  }

  // The section that the i-th token stands in: that of the last header, if the
  // schema knows it.
  function SectionAt(schema: seq<Section>, first: Option<Section>, ts: seq<Token>, i: nat): Option<Section>
    requires i <= |ts|
  {
    if i == 0 then first
    else if ts[i - 1].Header? then FindSection(schema, ts[i - 1].title)
    else SectionAt(schema, first, ts, i - 1)
  }

  // The parser returns an error at the i-th token.
  predicate Stops(schema: seq<Section>, first: Option<Section>, ts: seq<Token>, i: nat)
    requires i < |ts|
  {
    match ts[i]
    case Header(title, atEnd) => atEnd && FindSection(schema, title).Some?
    case Line(_) => SectionAt(schema, first, ts, i) == None
    case OpenHeader => true
    case OpenComment => true
    case _ => false
  }

  predicate CrashesAt(schema: seq<Section>, first: Option<Section>, ts: seq<Token>, i: nat)
    requires i < |ts|
  {
    && ts[i].Line? && '=' !in ts[i].text && SectionAt(schema, first, ts, i).Some?
    && forall j | 0 <= j < i :: !Stops(schema, first, ts, j)
  }

  ghost predicate SomeCrash(schema: seq<Section>, first: Option<Section>, ts: seq<Token>) {
    exists i :: 0 <= i < |ts| && CrashesAt(schema, first, ts, i)
  }

  lemma {:induction false} SectionAtTail(schema: seq<Section>, first: Option<Section>, t: Token, ts: seq<Token>, i: nat)
    requires i <= |ts|
    ensures SectionAt(schema, first, [t] + ts, i + 1) ==
            SectionAt(schema, if t.Header? then FindSection(schema, t.title) else first, ts, i)
  {
    if i > 0 {
      SectionAtTail(schema, first, t, ts, i - 1);
    }
  }

  // A first token that neither stops the parser nor crashes it leaves the rest.
  lemma {:induction false} CrashBehind(schema: seq<Section>, first: Option<Section>, t: Token, ts: seq<Token>)
    requires !Stops(schema, first, [t] + ts, 0) && !CrashesAt(schema, first, [t] + ts, 0)
    ensures SomeCrash(schema, first, [t] + ts) <==>
            SomeCrash(schema, if t.Header? then FindSection(schema, t.title) else first, ts)
  {
    var all, next := [t] + ts, if t.Header? then FindSection(schema, t.title) else first;
    forall i | 0 <= i < |ts| ensures Stops(schema, first, all, i + 1) == Stops(schema, next, ts, i) {
      SectionAtTail(schema, first, t, ts, i);
    }
    forall i | 0 <= i < |ts| ensures CrashesAt(schema, first, all, i + 1) == CrashesAt(schema, next, ts, i) {
      SectionAtTail(schema, first, t, ts, i);
      StopsShifted(schema, first, all, next, ts, i);
    }
    if i :| 0 <= i < |all| && CrashesAt(schema, first, all, i) {
      assert CrashesAt(schema, next, ts, i - 1);
    }
    if i :| 0 <= i < |ts| && CrashesAt(schema, next, ts, i) {
      assert CrashesAt(schema, first, all, i + 1);
    }
  }

  lemma StopsShifted(schema: seq<Section>, first: Option<Section>, all: seq<Token>, next: Option<Section>,
                     ts: seq<Token>, i: nat)
    requires i < |ts| && |all| == |ts| + 1 && !Stops(schema, first, all, 0)
    requires forall j | 0 <= j < |ts| :: Stops(schema, first, all, j + 1) == Stops(schema, next, ts, j)
    ensures (forall j | 0 <= j < i + 1 :: !Stops(schema, first, all, j)) <==>
            forall j | 0 <= j < i :: !Stops(schema, next, ts, j)
  {
    if forall j | 0 <= j < i :: !Stops(schema, next, ts, j) {
      forall j | 0 <= j < i + 1 ensures !Stops(schema, first, all, j) {
        assert j > 0 ==> Stops(schema, first, all, (j - 1) + 1) == Stops(schema, next, ts, j - 1);
      }
    }
    if forall j | 0 <= j < i + 1 :: !Stops(schema, first, all, j) {
      forall j | 0 <= j < i ensures !Stops(schema, next, ts, j) {
        assert !Stops(schema, first, all, j + 1);
      }
    }
  }

  lemma StoppedAtOnce(schema: seq<Section>, first: Option<Section>, t: Token, ts: seq<Token>)
    requires Stops(schema, first, [t] + ts, 0)
    ensures !SomeCrash(schema, first, [t] + ts)
  {
  }

  // A line has a value if it has an equals sign.
  lemma {:induction false} HasValue(line: string)
    ensures ReadUntil(line, '=') == NotFound <==> '=' !in line
  {
    if line != "" && line[0] != '=' {
      HasValue(line[1..]);
    }
  }

  // For every text: the parser crashes if and only if it gets, without an error
  // before, to a line without an equals sign in a section of the schema.
  lemma {:induction false} CrashesExactly(schema: seq<Section>, s: string, section: Option<Section>, settings: Settings)
    ensures Parse(schema, s, section, settings) == Crash <==> SomeCrash(schema, section, Tokens(s))
    decreases |s|
  {
    if s == "" {
    } else if s[0] == '[' {
      HeaderCrash(schema, s, section, settings);
    } else if s[0] == '#' || s[0] == ';' {
      match ReadUntil(s[1..], '\n') {
        case NotFound => StoppedAtOnce(schema, section, OpenComment, []);
        case Read(_, rest) =>
          CrashesExactly(schema, rest, section, settings);
          CrashBehind(schema, section, Comment, Tokens(rest));
      }
    } else if Blank(s[0]) {
      CrashesExactly(schema, SkipBlanks(s[1..]), section, settings);
    } else {
      LineCrash(schema, s, section, settings);
    }
  }

  lemma {:induction false} HeaderCrash(schema: seq<Section>, s: string, section: Option<Section>, settings: Settings)
    requires s != "" && s[0] == '['
    ensures Parse(schema, s, section, settings) == Crash <==> SomeCrash(schema, section, Tokens(s))
    decreases |s|, 0
  {
    match ReadUntil(s[1..], ']')
    case NotFound => StoppedAtOnce(schema, section, OpenHeader, []);
    case Read(title, rest) =>
      var t := Header(title, SkipBlanks(rest) == "");
      var ts := Tokens(SkipBlanks(rest));
      match FindSection(schema, title) {
        case None =>
          CrashesExactly(schema, SkipBlanks(rest), None, settings);
          CrashBehind(schema, section, t, ts);
        case Some(found) =>
          if t.atEnd {
            StoppedAtOnce(schema, section, t, ts);
          } else {
            CrashesExactly(schema, SkipBlanks(rest), Some(found), Enter(settings, found));
            CrashBehind(schema, section, t, ts);
          }
      }
  }

  lemma {:induction false} LineCrash(schema: seq<Section>, s: string, section: Option<Section>, settings: Settings)
    requires s != "" && s[0] != '[' && s[0] != '#' && s[0] != ';' && !Blank(s[0])
    ensures Parse(schema, s, section, settings) == Crash <==> SomeCrash(schema, section, Tokens(s))
    decreases |s|, 0
  {
    match ReadUntil(s, '\n')
    case NotFound =>
    case Read(line, rest) =>
      HasValue(line);
      var t, ts := Line(line), Tokens(rest);
      if section == None {
        StoppedAtOnce(schema, section, t, ts);
      } else {
        match ReadUntil(line, '=') {
          case NotFound => assert CrashesAt(schema, section, [t] + ts, 0);
          case Read(key, text) =>
            CrashesExactly(schema, rest, section, Assign(settings, section.value, Trim(key), LineValue(text)));
            CrashBehind(schema, section, t, ts);
        }
      }
  }

  // A file whose lines all have an equals sign does not crash the parser, whatever
  // the schema is.
  lemma {:induction false} SafeFile(schema: seq<Section>, s: string, settings: Settings)
    ensures (forall t | t in Tokens(s) && t.Line? :: '=' in t.text) ==> Parse(schema, s, None, settings) != Crash
  {
    CrashesExactly(schema, s, None, settings);
    var ts := Tokens(s);
    if i :| 0 <= i < |ts| && CrashesAt(schema, None, ts, i) {
      assert ts[i] in ts;
    }
  }
}
