/** The modifiers of ROCSHMEM_DEBUG_LEVEL: `<level>[:<modifier>]*`. */
module DebugFlags {
  import opened Options

  datatype Level = NONE | ERROR | WARN | ENV | VERSION | INFO | API | TRACE

  datatype EnvMode = MODIFIED | ALL | FULL

  datatype Flags = Flags(error: bool, version: bool, env: bool, envMode: EnvMode, info: bool, api: bool, warn: bool,
                         trace: bool, color: bool, stats: bool)

  function Rank(level: Level): nat {
    match level
    case NONE => 0
    case ERROR => 1
    case WARN => 2
    case ENV => 3
    case VERSION => 4
    case INFO => 5
    case API => 6
    case TRACE => 7
  }

  function Defaults(level: Level): Flags {
    var r := Rank(level);
    Flags(r >= Rank(ERROR), r >= Rank(VERSION), r >= Rank(ENV), MODIFIED, r >= Rank(INFO), r >= Rank(API),
          r >= Rank(WARN), r >= Rank(TRACE), true, false)
  }

  /** `tolower` in the C locale. */
  function LowerChar(c: char): char { if 'A' <= c <= 'Z' then c - 'A' + 'a' else c }

  function Lower(s: string): (r: string)
    ensures |r| == |s|
  {
    seq(|s|, i requires 0 <= i < |s| => LowerChar(s[i]))
  }

  // The meaning: one modifier after the other.

  datatype Modifier = NoError | NoVersion | NoEnv | NoInfo | NoApi | NoWarn | NoTrace | Env | Mode(mode: EnvMode)
                    | Color | NoColor | Stats | Unknown

  /** The comparisons of the parser, in its order. */
  const MODIFIERS: seq<(string, Modifier)> := [
    ("noerror", NoError), ("noversion", NoVersion), ("noenv", NoEnv), ("noinfo", NoInfo), ("noapi", NoApi),
    ("nowarn", NoWarn), ("notrace", NoTrace), ("env", Env), ("all", Mode(ALL)), ("full", Mode(FULL)),
    ("modified", Mode(MODIFIED)), ("color", Color), ("nocolor", NoColor), ("stats", Stats)]

  /** The first entry that matches; an unknown text has no meaning. */
  function Search(table: seq<(string, Modifier)>, text: string): Modifier {
    if table == [] then Unknown else if table[0].0 == text then table[0].1 else Search(table[1..], text)
  }

  function Meaning(text: string): Modifier { Search(MODIFIERS, text) }

  /** What one modifier does. An unknown one does nothing. */
  function Apply(f: Flags, m: Modifier): Flags {
    match m
    case NoError => f.(error := false)
    case NoVersion => f.(version := false)
    case NoEnv => f.(env := false)
    case NoInfo => f.(info := false)
    case NoApi => f.(api := false)
    case NoWarn => f.(warn := false)
    case NoTrace => f.(trace := false)
    case Env => f.(env := true, envMode := MODIFIED)
    case Mode(mode) => f.(envMode := mode)
    case Color => f.(color := true)
    case NoColor => f.(color := false)
    case Stats => f.(stats := true)
    case Unknown => f
  }

  function Fold(f: Flags, tokens: seq<string>): Flags
    decreases |tokens|
  {
    if tokens == [] then f else Fold(Apply(f, Meaning(Lower(tokens[0]))), tokens[1..])
  }

  /** The colon-separated tokens of a string, character by character. */
  function Split(s: string): (r: seq<string>)
    ensures |r| >= 1
  {
    if s == "" then [""]
    else
      var rest := Split(s[1..]);
      if s[0] == ':' then [""] + rest else [[s[0]] + rest[0]] + rest[1..]
  }

  // Positions, as the parser sees them.

  /** `find(':', from)`. */
  function FindColon(s: string, from: nat): (r: Option<nat>)
    ensures r.Some? ==> from <= r.value < |s|
    decreases |s| - from
  {
    if from >= |s| then None else if s[from] == ':' then Some(from) else FindColon(s, from + 1)
  }

  lemma {:induction false} FirstColon(s: string, from: nat)
    requires from <= |s|
    ensures var r := FindColon(s, from);
            if r.Some? then s[r.value] == ':' && ':' !in s[from..r.value] else ':' !in s[from..]
    decreases |s| - from
  {
    if from < |s| && s[from] != ':' {
      FirstColon(s, from + 1);
    }
  }

  /** The text between the colon at `pos` and the next one. */
  function Between(s: string, pos: nat, next: Option<nat>): string
    requires pos < |s| && (next.Some? ==> pos < next.value <= |s|)
  {
    if next.Some? then s[pos + 1..next.value] else s[pos + 1..]
  }

  /** Tokens after the colon at `pos`, if there is one. */
  function After(s: string, pos: Option<nat>): seq<string>
    requires pos.Some? ==> pos.value < |s|
    decreases if pos.Some? then |s| - pos.value else 0
  {
    if pos.None? then []
    else
      var next := FindColon(s, pos.value + 1);
      [Between(s, pos.value, next)] + After(s, next)
  }

  /** A string without a colon is one token. */
  lemma {:induction false} SplitPlain(s: string)
    requires ':' !in s
    ensures Split(s) == [s]
  {
    if s != "" {
      assert s[0] in s;
      SplitPlain(s[1..]);
      assert [s[0]] + s[1..] == s;
    }
  }

  /** The first token ends at the first colon. */
  lemma {:induction false} SplitAt(s: string, k: nat)
    requires k < |s| && s[k] == ':' && ':' !in s[..k]
    ensures Split(s) == [s[..k]] + Split(s[k + 1..])
  {
    if k > 0 {
      assert s[0] in s[..k];
      assert s[1..][..k - 1] == s[..k][1..];
      SplitAt(s[1..], k - 1);
      assert s[1..][k..] == s[k + 1..];
      assert [s[0]] + s[1..][..k - 1] == s[..k];
    }
  }

  /** The token after the colon at `pos` ends at the next colon, if there is one. */
  lemma SplitRest(s: string, pos: nat)
    requires pos < |s|
    ensures var next := FindColon(s, pos + 1);
            Split(s[pos + 1..]) == [Between(s, pos, next)] + if next.Some? then Split(s[next.value + 1..]) else []
  {
    var next := FindColon(s, pos + 1);
    FirstColon(s, pos + 1);
    if next.None? {
      SplitPlain(s[pos + 1..]);
    } else {
      SplitMiddle(s, pos + 1, next.value);
    }
  }

  lemma SplitMiddle(s: string, from: nat, colon: nat)
    requires from <= colon < |s| && s[colon] == ':' && ':' !in s[from..colon]
    ensures Split(s[from..]) == [s[from..colon]] + Split(s[colon + 1..])
  {
    var rest, k := s[from..], colon - from;
    assert rest[..k] == s[from..colon] && rest[k + 1..] == s[colon + 1..];
    SplitAt(rest, k);
  }

  /** Tokens by position are tokens by character. */
  lemma {:induction false} AfterIsSplit(s: string, pos: nat)
    requires pos < |s|
    ensures After(s, Some(pos)) == Split(s[pos + 1..])
    decreases |s| - pos
  {
    SplitRest(s, pos);
    var next := FindColon(s, pos + 1);
    if next.Some? {
      AfterIsSplit(s, next.value);
    }
  }

  /** All modifiers: every token but the first. */
  lemma ModifiersAreTokens(s: string)
    ensures After(s, FindColon(s, 0)) == Split(s)[1..]
  {
    var first := FindColon(s, 0);
    FirstColon(s, 0);
    if first.None? {
      assert s[0..] == s;
      SplitPlain(s);
    } else {
      assert s[0..first.value] == s[..first.value];
      SplitAt(s, first.value);
      AfterIsSplit(s, first.value);
    }
  }

  lemma FoldFirst(f: Flags, token: string, rest: seq<string>)
    ensures Fold(f, [token] + rest) == Fold(Apply(f, Meaning(Lower(token))), rest)
  {
    assert ([token] + rest)[1..] == rest;
  }

  /** The lookahead after `env`: a following `all`, `full` or `modified` is taken as well. */
  method AfterEnv(f: Flags, val: string, next: Option<nat>) returns (g: Flags, go: Option<nat>)
    requires next.Some? ==> next.value < |val|
    ensures go.Some? ==> next.Some? && next.value <= go.value < |val|
    ensures Fold(g, After(val, go)) == Fold(f, After(val, next))
  {
    g, go := f, next;
    if next.Some? {
      var next2 := FindColon(val, next.value + 1);
      var sub := Meaning(Lower(Between(val, next.value, next2)));
      FoldFirst(f, Between(val, next.value, next2), After(val, next2));
      if sub.Mode? {
        g, go := g.(envMode := sub.mode), next2;
      }
    }
  }

  /** One turn of the parser at the colon at `pos`: the new flags, and the colon to go on
      from. */
  method Modify(f: Flags, val: string, pos: nat) returns (g: Flags, go: Option<nat>)
    requires pos < |val|
    ensures go.Some? ==> pos < go.value < |val|
    ensures Fold(g, After(val, go)) == Fold(f, After(val, Some(pos)))
  {
    var next := FindColon(val, pos + 1);
    var modifier := Meaning(Lower(Between(val, pos, next)));
    FoldFirst(f, Between(val, pos, next), After(val, next));
    if modifier == Env {
      g, go := AfterEnv(f.(env := true, envMode := MODIFIED), val, next);
    } else {
      g, go := Apply(f, modifier), next;
    }
  }

  /** `make_debug_flags`: the flags are those of a plain pass over the tokens, although the
      parser looks ahead after `env`. */
  method MakeDebugFlags(level: Level, value: Option<string>) returns (f: Flags)
    ensures value.None? ==> f == Defaults(level)
    ensures value.Some? ==> f == Fold(Defaults(level), Split(value.value)[1..])
  {
    f := Defaults(level);
    if value.Some? {
      var val := value.value;
      ModifiersAreTokens(val);
      var pos := FindColon(val, 0);
      while pos.Some?
        invariant pos.Some? ==> pos.value < |val|
        invariant Fold(f, After(val, pos)) == Fold(Defaults(level), Split(val)[1..])
        decreases if pos.Some? then |val| - pos.value else -1
      {
        f, pos := Modify(f, val, pos.value);
      }
    }
  }
}
