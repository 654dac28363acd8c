/** What each flag comes to after a whole list of modifiers, said by the words in the list
    and not by the order in which the parser goes through them. */
module DebugLaws {
  import opened Options
  import opened DebugFlags

  /** The modifiers as the parser compares them. */
  function Words(tokens: seq<string>): (r: seq<string>)
    ensures |r| == |tokens|
  {
    seq(|tokens|, i requires 0 <= i < |tokens| => Lower(tokens[i]))
  }

  /** Case does not matter: capital letters become small, all else stays. */
  lemma LowerIs(s: string, i: nat)
    requires i < |s|
    ensures 'A' <= s[i] <= 'Z' ==> 'a' <= Lower(s)[i] <= 'z' && Lower(s)[i] as int == s[i] as int + 32
    ensures !('A' <= s[i] <= 'Z') ==> Lower(s)[i] == s[i]
    ensures Lower(Lower(s)) == Lower(s)
  {
    assert forall j :: 0 <= j < |s| ==> LowerChar(LowerChar(s[j])) == LowerChar(s[j]);
  }

  /** The last word that is one of `names`. */
  function LastAmong(words: seq<string>, names: set<string>): Option<string> {
    if words == [] then None
    else
      var later := LastAmong(words[1..], names);
      if later.Some? then later else if words[0] in names then Some(words[0]) else None
  }

  // The table.

  lemma NamesDiffer(i: nat, j: nat)
    requires i < j < |MODIFIERS|
    ensures MODIFIERS[i].0 != MODIFIERS[j].0
  {
  }

  /** The search finds the first entry with that name. */
  lemma {:induction false} SearchFinds(table: seq<(string, Modifier)>, i: nat)
    requires i < |table| && forall j :: 0 <= j < i ==> table[j].0 != table[i].0
    ensures Search(table, table[i].0) == table[i].1
  {
    if i > 0 {
      SearchFinds(table[1..], i - 1);
    }
  }

  lemma {:induction false} SearchMisses(table: seq<(string, Modifier)>, text: string)
    requires forall j :: 0 <= j < |table| ==> table[j].0 != text
    ensures Search(table, text) == Unknown
  {
    if table != [] {
      SearchMisses(table[1..], text);
    }
  }

  /** A known word is an entry of the table; any other has no meaning. */
  lemma Lookup(word: string) returns (i: Option<nat>)
    ensures i.Some? ==> i.value < |MODIFIERS| && MODIFIERS[i.value].0 == word && Meaning(word) == MODIFIERS[i.value].1
    ensures i.None? ==> Meaning(word) == Unknown && forall j :: 0 <= j < |MODIFIERS| ==> MODIFIERS[j].0 != word
  {
    if k :| 0 <= k < |MODIFIERS| && MODIFIERS[k].0 == word {
      forall j | 0 <= j < k ensures MODIFIERS[j].0 != MODIFIERS[k].0 {
        NamesDiffer(j, k);
      }
      SearchFinds(MODIFIERS, k);
      i := Some(k);
    } else {
      SearchMisses(MODIFIERS, word);
      i := None;
    }
  }

  lemma MeaningsDiffer(i: nat, j: nat)
    requires i < j < |MODIFIERS|
    ensures MODIFIERS[i].1 != MODIFIERS[j].1 && MODIFIERS[i].1 != Unknown && MODIFIERS[j].1 != Unknown
  {
  }

  /** A word means an entry exactly if it is the name of that entry. */
  lemma MeaningAt(word: string, k: nat)
    requires k < |MODIFIERS|
    ensures Meaning(word) == MODIFIERS[k].1 <==> word == MODIFIERS[k].0
  {
    var i := Lookup(word);
    MeaningsDiffer(0, 1);
    if i.Some? && i.value < k {
      NamesDiffer(i.value, k);
      MeaningsDiffer(i.value, k);
    } else if i.Some? && k < i.value {
      NamesDiffer(k, i.value);
      MeaningsDiffer(k, i.value);
    } else if k > 0 {
      MeaningsDiffer(0, k);
    }
  }

  /** `m` is what a word means that is the name of entry `k`, for every `k`. */
  ghost predicate ByTable(m: Modifier, word: string) {
    forall k :: 0 <= k < |MODIFIERS| ==> (m == MODIFIERS[k].1 <==> word == MODIFIERS[k].0)
  }

  lemma MeaningByTable(word: string)
    ensures ByTable(Meaning(word), word)
  {
    forall k | 0 <= k < |MODIFIERS| ensures Meaning(word) == MODIFIERS[k].1 <==> word == MODIFIERS[k].0 {
      MeaningAt(word, k);
    }
  }

  lemma ByEntry(m: Modifier, word: string, k: nat, name: string, entry: Modifier)
    requires ByTable(m, word) && k < |MODIFIERS| && MODIFIERS[k] == (name, entry)
    ensures m == entry <==> word == name
  {
  }

  // One word.

  /** The flags that a word can only clear, and the one that it can only set. */
  lemma ClearsOwn(f: Flags, word: string, m: Modifier)
    requires ByTable(m, word)
    ensures var g := Apply(f, m);
            && g.error == (f.error && word != "noerror") && g.version == (f.version && word != "noversion")
            && g.info == (f.info && word != "noinfo") && g.api == (f.api && word != "noapi")
            && g.warn == (f.warn && word != "nowarn") && g.trace == (f.trace && word != "notrace")
            && g.stats == (f.stats || word == "stats")
  {
    ByEntry(m, word, 0, "noerror", NoError);
    ByEntry(m, word, 1, "noversion", NoVersion);
    ByEntry(m, word, 3, "noinfo", NoInfo);
    ByEntry(m, word, 4, "noapi", NoApi);
    ByEntry(m, word, 5, "nowarn", NoWarn);
    ByEntry(m, word, 6, "notrace", NoTrace);
    ByEntry(m, word, 13, "stats", Stats);
  }

  lemma LastsStep(f: Flags, word: string, m: Modifier)
    requires ByTable(m, word)
    ensures var g := Apply(f, m);
            && g.color == (if word == "color" then true else if word == "nocolor" then false else f.color)
            && g.env == (if word == "env" then true else if word == "noenv" then false else f.env)
  {
    ByEntry(m, word, 2, "noenv", NoEnv);
    ByEntry(m, word, 7, "env", Env);
    ByEntry(m, word, 11, "color", Color);
    ByEntry(m, word, 12, "nocolor", NoColor);
  }

  lemma ModeStep(f: Flags, word: string, m: Modifier)
    requires ByTable(m, word)
    ensures Apply(f, m).envMode
         == if word == "all" then ALL else if word == "full" then FULL
            else if word == "env" || word == "modified" then MODIFIED else f.envMode
  {
    ByEntry(m, word, 7, "env", Env);
    ByEntry(m, word, 8, "all", Mode(ALL));
    ByEntry(m, word, 9, "full", Mode(FULL));
    ByEntry(m, word, 10, "modified", Mode(MODIFIED));
  }

  // All words.

  lemma WordsFirst(tokens: seq<string>)
    requires tokens != []
    ensures Words(tokens)[0] == Lower(tokens[0]) && Words(tokens)[1..] == Words(tokens[1..])
    ensures forall word :: word in Words(tokens) <==> word == Lower(tokens[0]) || word in Words(tokens[1..])
  {
    assert Words(tokens) == [Lower(tokens[0])] + Words(tokens[1..]);
  }

  /** A flag is cleared by its own word wherever it stands; `stats` is set by its own. */
  lemma {:induction false} FoldClears(f: Flags, tokens: seq<string>)
    ensures var g, words := Fold(f, tokens), Words(tokens);
            && g.error == (f.error && "noerror" !in words) && g.version == (f.version && "noversion" !in words)
            && g.info == (f.info && "noinfo" !in words) && g.api == (f.api && "noapi" !in words)
            && g.warn == (f.warn && "nowarn" !in words) && g.trace == (f.trace && "notrace" !in words)
            && g.stats == (f.stats || "stats" in words)
    decreases |tokens|
  {
    if tokens != [] {
      var word := Lower(tokens[0]);
      MeaningByTable(word);
      ClearsOwn(f, word, Meaning(word));
      WordsFirst(tokens);
      FoldClears(Apply(f, Meaning(word)), tokens[1..]);
    }
  }

  /** For colour and environment the last word counts. */
  lemma {:induction false} FoldLast(f: Flags, tokens: seq<string>)
    ensures Fold(f, tokens).color
         == match LastAmong(Words(tokens), {"color", "nocolor"}) case None => f.color case Some(word) => word == "color"
    ensures Fold(f, tokens).env
         == match LastAmong(Words(tokens), {"env", "noenv"}) case None => f.env case Some(word) => word == "env"
    decreases |tokens|
  {
    if tokens != [] {
      var word := Lower(tokens[0]);
      MeaningByTable(word);
      LastsStep(f, word, Meaning(word));
      WordsFirst(tokens);
      FoldLast(Apply(f, Meaning(word)), tokens[1..]);
    }
  }

  lemma {:induction false} FoldMode(f: Flags, tokens: seq<string>)
    ensures Fold(f, tokens).envMode
         == match LastAmong(Words(tokens), {"env", "all", "full", "modified"})
            case None => f.envMode
            case Some(word) => if word == "all" then ALL else if word == "full" then FULL else MODIFIED
    decreases |tokens|
  {
    if tokens != [] {
      var word := Lower(tokens[0]);
      MeaningByTable(word);
      ModeStep(f, word, Meaning(word));
      WordsFirst(tokens);
      FoldMode(Apply(f, Meaning(word)), tokens[1..]);
    }
  }

  lemma DefaultsAre(level: Level)
    ensures var f := Defaults(level);
            && f.error == (level != NONE) && f.warn == (level !in {NONE, ERROR})
            && f.env == (level !in {NONE, ERROR, WARN}) && f.version == (level in {VERSION, INFO, API, TRACE})
            && f.info == (level in {INFO, API, TRACE}) && f.api == (level in {API, TRACE})
            && f.trace == (level == TRACE) && f.color && !f.stats && f.envMode == MODIFIED
  {
  }

  /** A message flag holds if the level reaches it and no modifier, wherever it stands,
      takes it away; statistics are on if a modifier asks for them. */
  lemma MessageFlags(level: Level, tokens: seq<string>)
    ensures var f, words := Fold(Defaults(level), tokens), Words(tokens);
            && f.error == (level != NONE && "noerror" !in words)
            && f.warn == (level !in {NONE, ERROR} && "nowarn" !in words)
            && f.version == (level in {VERSION, INFO, API, TRACE} && "noversion" !in words)
            && f.info == (level in {INFO, API, TRACE} && "noinfo" !in words)
            && f.api == (level in {API, TRACE} && "noapi" !in words)
            && f.trace == (level == TRACE && "notrace" !in words)
            && f.stats == ("stats" in words)
  {
    DefaultsAre(level);
    FoldClears(Defaults(level), tokens);
  }

  /** Colour is on unless the last word about it is against it. */
  lemma ColorFlag(level: Level, tokens: seq<string>)
    ensures Fold(Defaults(level), tokens).color
       <==> LastAmong(Words(tokens), {"color", "nocolor"}) != Some("nocolor")
  {
    DefaultsAre(level);
    FoldLast(Defaults(level), tokens);
    LastIsOne(Words(tokens), {"color", "nocolor"});
  }

  /** The environment is printed if the last word about it asks for it, or there is none and
      the level reaches it; how much of it, says the last word about that. */
  lemma EnvFlags(level: Level, tokens: seq<string>)
    ensures var f := Fold(Defaults(level), tokens);
            var env := LastAmong(Words(tokens), {"env", "noenv"});
            var mode := LastAmong(Words(tokens), {"env", "all", "full", "modified"});
            && f.env == (if env.None? then level !in {NONE, ERROR, WARN} else env.value == "env")
            && f.envMode == (if mode == Some("all") then ALL else if mode == Some("full") then FULL else MODIFIED)
  {
    DefaultsAre(level);
    FoldLast(Defaults(level), tokens);
    FoldMode(Defaults(level), tokens);
  }

  lemma {:induction false} LastIsOne(words: seq<string>, names: set<string>)
    ensures LastAmong(words, names).Some? ==> LastAmong(words, names).value in names
  {
    if words != [] {
      LastIsOne(words[1..], names);
    }
  }
}
