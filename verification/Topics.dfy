/** Topic names and topic filters: the level-by-level rules of MQTT 3.1.1 (sections 4.7.1 to 4.7.3),
    and the character scans of the broker that have to agree with them.
    A C string is modelled by its characters before the terminator. */
module Topics {

  /** The terminator the scans use as "no character". */
  const NUL: char := '\0'

  // ---------- levels ----------

  /** The levels of a topic: what stands between the '/' separators. */
  function Split(s: string): (levels: seq<string>)
    ensures |levels| >= 1
  {
    if s == "" then [""]
    else if s[0] == '/' then [""] + Split(s[1..])
    else var rest := Split(s[1..]); [[s[0]] + rest[0]] + rest[1..]
  }

  function Join(levels: seq<string>): string
    requires |levels| >= 1
  {
    if |levels| == 1 then levels[0] else levels[0] + "/" + Join(levels[1..])
  }

  lemma {:induction false} JoinSplit(s: string)
    ensures Join(Split(s)) == s
  {
    if s == "" {
    } else if s[0] == '/' {
      JoinSplit(s[1..]);
      assert Split(s)[1..] == Split(s[1..]);
    } else {
      JoinSplit(s[1..]);
      var rest := Split(s[1..]);
      assert Split(s)[1..] == rest[1..];
    }
  }

  lemma SplitInjective(s: string, s': string)
    requires Split(s) == Split(s')
    ensures s == s'
  {
    JoinSplit(s);
    JoinSplit(s');
  }

  lemma {:induction false} SplitOneLevel(s: string)
    requires '/' !in s
    ensures Split(s) == [s]
  {
    if s != "" {
      SplitOneLevel(s[1..]);
      assert [s[0]] + s[1..] == s;
    }
  }

  lemma {:induction false} SplitAtSeparator(level: string, rest: string)
    requires '/' !in level
    ensures Split(level + "/" + rest) == [level] + Split(rest)
  {
    var s := level + "/" + rest;
    if level == "" {
      assert s[1..] == rest;
    } else {
      SplitAtSeparator(level[1..], rest);
      assert s[1..] == level[1..] + "/" + rest;
      assert [level[0]] + level[1..] == level;
    }
  }

  // ---------- tokens ----------

  /** The tokens of a topic: its levels, behind an empty sentinel unless the topic starts with '$'. */
  function Tokens(s: string): (tokens: seq<string>)
    ensures |tokens| >= 1
  {
    if StartsDollar(s) then Split(s) else [""] + Split(s)
  }

  predicate StartsDollar(s: string) { s != "" && s[0] == '$' }

  predicate StartsWild(s: string) { s != "" && (s[0] == '+' || s[0] == '#') }

  lemma SplitHead(s: string)
    ensures Split(s)[0] == "" <==> s == "" || s[0] == '/'
    ensures Split(s)[0] != "" ==> Split(s)[0][0] == s[0]
  {
  }

  /** Tokenising loses nothing, so a filter can stand for its place in the tree. */
  lemma TokensInjective(s: string, s': string)
    requires Tokens(s) == Tokens(s')
    ensures s == s'
  {
    SplitHead(s);
    SplitHead(s');
    if StartsDollar(s) {
      SplitInjective(s, s');
    } else {
      assert Tokens(s)[1..] == Split(s);
      assert Tokens(s')[1..] == Split(s') || StartsDollar(s');
      SplitInjective(s, s');
    }
  }

  /** The tree path of a filter: mqtt3_sub_add descends by the first token and then by all the tokens. */
  function PathOf(filter: string): (path: seq<string>)
    ensures |path| >= 2
  {
    [Tokens(filter)[0]] + Tokens(filter)
  }

  lemma PathOfInjective(f: string, f': string)
    requires PathOf(f) == PathOf(f')
    ensures f == f'
  {
    assert PathOf(f)[1..] == Tokens(f) && PathOf(f')[1..] == Tokens(f');
    TokensInjective(f, f');
  }

  /** tokens are the finished levels, and s[start..i] is the part read of the level in progress. */
  ghost predicate Tokenised(s: string, tokens: seq<string>, start: nat, i: nat)
  {
    if i <= |s| then start <= i && '/' !in s[start..i] && tokens + Split(s[start..]) == Tokens(s)
    else tokens == Tokens(s)
  }

  lemma TokenisedStart(s: string)
    ensures s == "" || s[0] != '/' ==> Tokenised(s, if StartsDollar(s) then [] else [""], 0, 0)
    ensures s != "" && s[0] == '/' ==> Tokenised(s, ["", ""], 1, 1)
  {
    if s != "" && s[0] == '/' {
      assert ["", ""] + Split(s[1..]) == [""] + ([""] + Split(s[1..]));
    }
  }

  lemma TokenisedInside(s: string, tokens: seq<string>, start: nat, i: nat)
    requires i < |s| && s[i] != '/' && Tokenised(s, tokens, start, i)
    ensures Tokenised(s, tokens, start, i + 1)
  {
    assert s[start..i + 1] == s[start..i] + [s[i]];
  }

  lemma TokenisedLevel(s: string, tokens: seq<string>, start: nat, i: nat)
    requires i < |s| && s[i] == '/' && Tokenised(s, tokens, start, i)
    ensures Tokenised(s, tokens + [s[start..i]], i + 1, i + 1)
  {
    assert s[start..] == s[start..i] + "/" + s[i + 1..];
    SplitAtSeparator(s[start..i], s[i + 1..]);
    assert (tokens + [s[start..i]]) + Split(s[i + 1..]) == tokens + ([s[start..i]] + Split(s[i + 1..]));
  }

  lemma TokenisedLast(s: string, tokens: seq<string>, start: nat)
    requires Tokenised(s, tokens, start, |s|)
    ensures Tokenised(s, tokens + [s[start..]], |s| + 1, |s| + 1)
  {
    assert s[start..|s|] == s[start..];
    SplitOneLevel(s[start..]);
  }

  /** One character, or the terminator. */
  method ScanOne(subtopic: string, tokens: seq<string>, start: nat, i: nat) returns (tokens': seq<string>, start': nat)
    requires start <= i <= |subtopic| && Tokenised(subtopic, tokens, start, i)
    ensures start' <= i + 1 && Tokenised(subtopic, tokens', start', i + 1)
  {
    tokens', start' := tokens, start;
    if i == |subtopic| || subtopic[i] == '/' {
      var stop := i;
      var topic := "";
      if start != stop {
        topic := subtopic[start..stop];
      }
      assert topic == subtopic[start..i];
      if i == |subtopic| {
        assert subtopic[start..] == topic;
        TokenisedLast(subtopic, tokens, start);
      } else {
        TokenisedLevel(subtopic, tokens, start, i);
      }
      tokens' := tokens + [topic];
      start' := i + 1;
    } else {
      TokenisedInside(subtopic, tokens, start, i);
    }
  }

  /** One pass over the characters with a start mark; the last round reads the terminator. */
  method Tokenise(subtopic: string) returns (tokens: seq<string>)
    ensures tokens == Tokens(subtopic)
  {
    tokens := [];
    if !(|subtopic| > 0 && subtopic[0] == '$') {
      tokens := tokens + [""];
    }
    assert tokens == if StartsDollar(subtopic) then [] else [""];
    TokenisedStart(subtopic);
    var len := |subtopic|;
    var start := 0;
    if len > 0 && subtopic[0] == '/' {
      tokens := tokens + [""];
      start := 1;
      assert tokens == ["", ""];
    }
    var i := start;
    while i < len + 1
      invariant 0 <= start <= i <= len + 1
      invariant Tokenised(subtopic, tokens, start, i)
    {
      tokens, start := ScanOne(subtopic, tokens, start, i);
      i := i + 1;
    }
  }

  // ---------- validity ----------

  predicate WildFree(s: string) { '+' !in s && '#' !in s }

  /** Sections 4.7.1.2 and 4.7.1.3: a wildcard fills a level of its own, '#' only the last one. */
  predicate ValidLevels(levels: seq<string>)
  {
    forall i | 0 <= i < |levels| :: LevelOk(levels[i]) && (levels[i] == "#" ==> i == |levels| - 1)
  }

  predicate LevelOk(level: string) { WildFree(level) || level == "+" || level == "#" }

  predicate ValidFilter(s: string) { |s| <= 65535 && ValidLevels(Split(s)) }

  /** What one round of sub_topic_valid demands of the character x between c and next (NUL: none). */
  predicate CharOk(c: char, x: char, next: char)
  {
    && (x == '+' ==> (c == NUL || c == '/') && (next == NUL || next == '/'))
    && (x == '#' ==> (c == NUL || c == '/') && next == NUL)
  }

  predicate CharsOk(c: char, s: string)
    decreases |s|
  {
    s == "" || (CharOk(c, s[0], CharAt(s, 1)) && CharsOk(s[0], s[1..]))
  }

  /** str[i], with the terminator behind the last character. */
  function CharAt(s: string, i: nat): char
  {
    if i < |s| then s[i] else NUL
  }

  lemma ValidLevelsCons(level: string, rest: seq<string>)
    ensures ValidLevels([level] + rest) <==>
              LevelOk(level) && (level == "#" ==> rest == []) && ValidLevels(rest)
  {
    var all := [level] + rest;
    assert all[0] == level;
    assert forall i | 0 <= i < |rest| :: all[i + 1] == rest[i];
    if ValidLevels(all) {
      forall i | 0 <= i < |rest|
        ensures LevelOk(rest[i]) && (rest[i] == "#" ==> i == |rest| - 1)
      {
        assert all[i + 1] == rest[i];
      }
    }
  }

  /** The scan agrees with the levels: at a level's start, and in the middle of a level (its first part being free of wildcards). */
  lemma {:induction false} CharsOkIsValidLevels(c: char, s: string)
    requires NUL !in s
    ensures c == NUL || c == '/' ==> (CharsOk(c, s) <==> ValidLevels(Split(s)))
    ensures c != NUL && c != '/' ==>
              (CharsOk(c, s) <==> WildFree(Split(s)[0]) && ValidLevels(Split(s)[1..]))
    decreases |s|
  {
    if s != "" {
      var tail := s[1..];
      CharsOkIsValidLevels(s[0], tail);
      SplitHead(tail);
      var rest := Split(tail);
      assert CharAt(s, 1) == NUL <==> tail == "";
      assert tail != "" ==> CharAt(s, 1) == tail[0];
      if s[0] == '/' {
        assert Split(s)[1..] == rest;
        ValidLevelsCons("", rest);
      } else {
        assert Split(s)[0] == [s[0]] + rest[0] && Split(s)[1..] == rest[1..];
        ValidLevelsCons([s[0]] + rest[0], rest[1..]);
        assert tail == "" <==> rest == [""] by { JoinSplit(tail); }
        assert WildFree([s[0]] + rest[0]) <==> s[0] != '+' && s[0] != '#' && WildFree(rest[0]) by {
          assert ([s[0]] + rest[0])[1..] == rest[0];
        }
        assert [s[0]] + rest[0] == "+" <==> s[0] == '+' && rest[0] == "";
        assert [s[0]] + rest[0] == "#" <==> s[0] == '#' && rest[0] == "";
      }
    }
  }

  method SubTopicValid(str: string) returns (valid: bool)
    requires NUL !in str
    ensures valid <==> ValidFilter(str)
  {
    var c := NUL;
    var len := 0;
    while len < |str|
      invariant 0 <= len <= |str|
      invariant CharsOk(NUL, str) <==> CharsOk(c, str[len..])
    {
      CharsOkIsValidLevels(NUL, str);
      if str[len] == '+' {
        if (c != NUL && c != '/') || (CharAt(str, len + 1) != NUL && CharAt(str, len + 1) != '/') {
          return false;
        }
      } else if str[len] == '#' {
        if (c != NUL && c != '/') || CharAt(str, len + 1) != NUL {
          return false;
        }
      }
      assert CharsOk(c, str[len..]) <==> CharsOk(str[len], str[len + 1..]) by {
        assert CharAt(str[len..], 1) == CharAt(str, len + 1);
        assert str[len..][1..] == str[len + 1..];
      }
      c := str[len];
      len := len + 1;
    }
    CharsOkIsValidLevels(NUL, str);
    return len <= 65535;
  }

  method PubTopicValid(str: string) returns (valid: bool)
    ensures valid <==> WildFree(str) && |str| <= 65535
  {
    var len := 0;
    while len < |str|
      invariant 0 <= len <= |str|
      invariant WildFree(str[..len])
    {
      if str[len] == '+' || str[len] == '#' {
        return false;
      }
      len := len + 1;
    }
    return len <= 65535;
  }

  // ---------- matching ----------

  predicate LevelMatches(f: string, t: string) { f == "+" || f == t }

  /** Sections 4.7.1.2 and 4.7.1.3: a last '#' stands for the parent level and everything under it,
      any other level for exactly one level. */
  predicate LevelsMatch(f: seq<string>, t: seq<string>)
  {
    if |f| > 0 && f[|f| - 1] == "#" then
      |f| - 1 <= |t| && forall i | 0 <= i < |f| - 1 :: LevelMatches(f[i], t[i])
    else
      |f| == |t| && forall i | 0 <= i < |f| :: LevelMatches(f[i], t[i])
  }

  /** Section 4.7.2 on top: a leading wildcard never matches a topic that starts with '$'. */
  predicate FilterMatches(filter: string, topic: string)
  {
    && LevelsMatch(Split(filter), Split(topic))
    && !(StartsWild(filter) && StartsDollar(topic))
  }

  /** What a publish compares: the first tokens by equality, then all the tokens by levels. */
  predicate PathMatches(path: seq<string>, tokens: seq<string>)
    requires |path| >= 1 && |tokens| >= 1
  {
    path[0] == tokens[0] && LevelsMatch(path[1..], tokens)
  }

  lemma LevelsMatchCons(f: string, fs: seq<string>, t: string, ts: seq<string>)
    requires fs != []
    ensures LevelsMatch([f] + fs, [t] + ts) <==> LevelMatches(f, t) && LevelsMatch(fs, ts)
  {
    var all, alt := [f] + fs, [t] + ts;
    assert all[|all| - 1] == fs[|fs| - 1];
    assert forall i | 0 <= i < |fs| :: all[i + 1] == fs[i];
    assert forall i | 0 <= i < |ts| :: alt[i + 1] == ts[i];
    assert all[0] == f && alt[0] == t;
    if LevelsMatch(all, alt) {
      forall i | 0 <= i < |fs| && i < |ts| && (fs[|fs| - 1] == "#" ==> i < |fs| - 1)
        ensures LevelMatches(fs[i], ts[i])
      {
        assert LevelMatches(all[i + 1], alt[i + 1]);
      }
    }
  }

  lemma WildFreeSplit(s: string)
    requires WildFree(s)
    ensures forall i | 0 <= i < |Split(s)| :: WildFree(Split(s)[i])
  {
    if s != "" {
      WildFreeSplit(s[1..]);
    }
  }

  lemma FirstLevelMatches(fs: seq<string>, ts: seq<string>)
    requires |fs| >= 1 && |ts| >= 1
    ensures LevelsMatch(fs, ts) && fs[0] != "#" ==> LevelMatches(fs[0], ts[0])
  {
  }

  /** Matching on tokens is matching on plain levels plus the rule for '$' topics. */
  lemma TokenMatchIsFilterMatch(filter: string, topic: string)
    requires ValidFilter(filter) && WildFree(topic)
    ensures PathMatches(PathOf(filter), Tokens(topic)) <==> FilterMatches(filter, topic)
  {
    var fs, ts := Split(filter), Split(topic);
    SplitHead(filter);
    SplitHead(topic);
    assert PathOf(filter)[1..] == Tokens(filter);
    FirstLevelMatches(fs, ts);
    WildFirst(filter);
    if !StartsDollar(filter) && !StartsDollar(topic) {
      LevelsMatchCons("", fs, "", ts);
    }
  }

  lemma WildFirst(filter: string)
    requires ValidFilter(filter)
    ensures StartsWild(filter) <==> Split(filter)[0] == "+" || Split(filter)[0] == "#"
  {
    SplitHead(filter);
    if StartsWild(filter) {
      assert filter[0] in Split(filter)[0];
    }
  }

  /** A valid filter's path is a valid list of levels. */
  lemma ValidPath(filter: string)
    requires ValidFilter(filter)
    ensures ValidLevels(PathOf(filter))
  {
    SplitHead(filter);
    if !StartsDollar(filter) {
      ValidLevelsCons("", Split(filter));
    } else {
      assert Split(filter)[0][0] == '$';
    }
    var first := Tokens(filter)[0];
    assert WildFree(first);
    ValidLevelsCons(first, Tokens(filter));
  }

  // ---------- examples ----------

  lemma TwoLevels(s: string, a: string, b: string)
    requires s == a + "/" + b && '/' !in a && '/' !in b
    ensures Split(s) == [a, b]
  {
    SplitAtSeparator(a, b);
    SplitOneLevel(b);
  }

  /** In the manner of sections 4.7.1.2, 4.7.1.3 and 4.7.2: '#' includes the parent level ... */
  lemma HashExamples()
    ensures FilterMatches("a/#", "a") && FilterMatches("a/#", "a/b") && !FilterMatches("a/#", "b") && FilterMatches("#", "a/b")
  {
    SplitOneLevel("a");
    SplitOneLevel("b");
    SplitOneLevel("#");
    TwoLevels("a/b", "a", "b");
    TwoLevels("a/#", "a", "#");
    assert !LevelMatches(Split("a/#")[0], Split("b")[0]);
  }

  /** ... '+' is one level, empty or not ... */
  lemma PlusExamples()
    ensures FilterMatches("a/+", "a/b") && FilterMatches("a/+", "a/") && !FilterMatches("a/+", "a")
  {
    SplitOneLevel("a");
    TwoLevels("a/b", "a", "b");
    TwoLevels("a/", "a", "");
    TwoLevels("a/+", "a", "+");
  }

  lemma SlashExamples()
    ensures FilterMatches("+/+", "/b") && FilterMatches("/+", "/b") && !FilterMatches("+", "/b")
  {
    SplitOneLevel("+");
    TwoLevels("/b", "", "b");
    TwoLevels("+/+", "+", "+");
    TwoLevels("/+", "", "+");
  }

  /** ... and neither stands in front for a level that begins with '$'. */
  lemma DollarExamples()
    ensures !FilterMatches("#", "$a/b") && !FilterMatches("+/b", "$a/b") && FilterMatches("$a/#", "$a/b")
  {
    TwoLevels("$a/b", "$a", "b");
    TwoLevels("$a/#", "$a", "#");
  }

  /** A wildcard fills its level ... */
  lemma FillExamples()
    ensures ValidFilter("+/b") && ValidFilter("/") && !ValidFilter("a#") && !ValidFilter("a+")
  {
    SplitOneLevel("a#");
    SplitOneLevel("a+");
    TwoLevels("+/b", "+", "b");
    TwoLevels("/", "", "");
    assert '#' in "a#" && '+' in "a+";
    assert !LevelOk(Split("a#")[0]) && !LevelOk(Split("a+")[0]);
  }

  /** ... and '#' is the last one. */
  lemma LastExamples()
    ensures ValidFilter("a/#") && ValidFilter("#") && !ValidFilter("#/b")
  {
    SplitOneLevel("#");
    TwoLevels("a/#", "a", "#");
    TwoLevels("#/b", "#", "b");
    assert Split("#/b")[0] == "#";
  }
}
