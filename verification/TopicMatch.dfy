/** Topic filter matching: the index-moving matcher against the level-by-level definition. */
module TopicMatch {

  // ----- the definition, section 4.7 of MQTT 3.1.1

  /** The levels of a topic name or filter: the parts between the separators. */
  function Levels(s: string): (levels: seq<string>)
    ensures |levels| >= 1
  {
    if s == "" then [""]
    else if s[0] == '/' then [""] + Levels(s[1..])
    else
      var rest := Levels(s[1..]);
      [[s[0]] + rest[0]] + rest[1..]
  }

  /** "+" stands for any one level, a last "#" for all remaining levels, also for none. */
  predicate LevelsMatch(name: seq<string>, filter: seq<string>) {
    if filter == [] then name == []
    else if filter == ["#"] then true
    else name != [] && (filter[0] == "+" || filter[0] == name[0]) && LevelsMatch(name[1..], filter[1..])
  }

  predicate IsWildcard(c: char) { c == '+' || c == '#' }

  predicate WildcardFree(name: string) { forall c <- name :: !IsWildcard(c) }

  predicate TopicMatches(name: string, filter: string) {
    && LevelsMatch(Levels(name), Levels(filter))
    && !(name != "" && filter != "" && name[0] == '$' && IsWildcard(filter[0]))
  }

  /** What a topic name must be: no wildcards (section 4.7.1) and no null character (section 4.7.3). */
  predicate IsTopicName(name: string) {
    name != "" && WildcardFree(name) && forall c <- name :: c != '\0'
  }

  /** Levels put together with separators between them. */
  function Join(levels: seq<string>): string
    requires levels != []
  {
    if |levels| == 1 then levels[0] else levels[0] + ("/" + Join(levels[1..]))
  }

  lemma {:induction false} FirstLevel(level: string, rest: string)
    requires '/' !in level
    ensures Levels(level) == [level] && Levels(level + ("/" + rest)) == [level] + Levels(rest)
    decreases |level|
  {
    var t := level + ("/" + rest);
    if level == "" {
      assert t[1..] == rest;
    } else {
      assert level == [level[0]] + level[1..] && level[0] in level && t[1..] == level[1..] + ("/" + rest);
      FirstLevel(level[1..], rest);
    }
  }

  /** The levels are exactly the parts between the separators, empty ones included. */
  lemma {:induction false} LevelsOfJoin(levels: seq<string>)
    requires levels != [] && forall l <- levels :: '/' !in l
    ensures Levels(Join(levels)) == levels
    decreases |levels|
  {
    assert levels[0] in levels && levels == [levels[0]] + levels[1..];
    if |levels| == 1 {
      FirstLevel(levels[0], "");
    } else {
      assert forall l <- levels[1..] :: l in levels;
      LevelsOfJoin(levels[1..]);
      FirstLevel(levels[0], Join(levels[1..]));
    }
  }

  /** The examples of sections 4.7.1.2 and 4.7.1.3 of the standard, by levels. */
  lemma {:induction false} StandardExamples()
    ensures var player := ["sport", "tennis", "player1"];
            && LevelsMatch(player, player + ["#"]) && LevelsMatch(player + ["ranking"], player + ["#"])
            && LevelsMatch(player + ["score", "wimbledon"], player + ["#"]) && LevelsMatch(player, ["sport", "tennis", "+"])
            && !LevelsMatch(player + ["ranking"], ["sport", "tennis", "+"])
    ensures LevelsMatch(["sport"], ["sport", "#"]) && LevelsMatch(["sport"], ["#"])
    ensures !LevelsMatch(["sport"], ["sport", "+"]) && LevelsMatch(["sport", ""], ["sport", "+"])
    ensures LevelsMatch(["", "finance"], ["+", "+"]) && LevelsMatch(["", "finance"], ["", "+"])
    ensures !LevelsMatch(["", "finance"], ["+"])
  {
    var player := ["sport", "tennis", "player1"];
    forall rest ensures LevelsMatch(player + rest, player + ["#"]) { SameFront(player, rest, ["#"]); }
    assert player + [] == player;
    SameFront(["sport", "tennis"], ["player1"], ["+"]);
    SameFront(["sport", "tennis"], ["player1", "ranking"], ["+"]);
    assert ["sport", "tennis"] + ["player1"] == player && ["sport", "tennis"] + ["player1", "ranking"] == player + ["ranking"];
    assert ["sport", "tennis"] + ["+"] == ["sport", "tennis", "+"];
    assert LevelsMatch(["player1"], ["+"]) && !LevelsMatch(["player1", "ranking"], ["+"]);
  }

  lemma {:induction false} SameFront(front: seq<string>, name: seq<string>, filter: seq<string>)
    requires filter != [] && forall i :: 0 <= i < |front| ==> front[i] != "#"
    ensures LevelsMatch(front + name, front + filter) <==> LevelsMatch(name, filter)
    decreases |front|
  {
    if front == [] {
      assert front + name == name && front + filter == filter;
    } else {
      assert (front + name)[1..] == front[1..] + name && (front + filter)[1..] == front[1..] + filter;
      SameFront(front[1..], name, filter);
    }
  }

  lemma {:induction false} TwoLevels(a: string, b: string)
    requires '/' !in a && '/' !in b
    ensures Levels(a + ("/" + b)) == [a, b]
  {
    LevelsOfJoin([a, b]);
    assert [a, b][1..] == [b];
  }

  /** Section 4.7.2: a filter that starts with a wildcard is not for topics that start with a dollar sign. */
  lemma {:induction false} DollarExamples()
    ensures var topic := "$SYS" + ("/" + "monitor");
            && !TopicMatches(topic, "#") && !TopicMatches(topic, "+" + ("/" + "monitor"))
            && TopicMatches(topic, "$SYS" + ("/" + "#")) && TopicMatches(topic, "$SYS" + ("/" + "+"))
    ensures var topic := "S$YS" + ("/" + "monitor");
            TopicMatches(topic, "#") && TopicMatches(topic, "+" + ("/" + "monitor"))
  {
    TwoLevels("$SYS", "monitor");
    TwoLevels("S$YS", "monitor");
    TwoLevels("$SYS", "#");
    TwoLevels("$SYS", "+");
    TwoLevels("+", "monitor");
    FirstLevel("#", "");
  }

  // ----- the matching pairs that the matcher misses

  /** The filter ends in "+/#" and the name ends at the level of that "+"; or the name ends in "/" right
      behind a level that a "+" stands for, and the filter does not end there too. */
  predicate Missed(name: seq<string>, filter: seq<string>) {
    var n, f := |name|, |filter|;
    || (f == n + 1 && n >= 1 && filter[n - 1] == "+" && filter[n] == "#")
    || (2 <= n <= f && name[n - 1] == "" && filter[n - 2] == "+" && filter[n - 1..] != [""])
  }

  /** What the matcher computes, level by level; `plus` says whether the level before was a "+". */
  predicate Found(name: seq<string>, filter: seq<string>, plus: bool)
    requires name != [] && filter != []
  {
    if filter == ["#"] then !(plus && name == [""])
    else if filter[0] == "+" then
      if |name| == 1 then filter == ["+"] && !(plus && name == [""])
      else |filter| > 1 && Found(name[1..], filter[1..], true)
    else
      && name[0] == filter[0]
      && if |name| == 1 then filter == name || (filter == name + ["#"] && !(plus && name == [""]))
         else |filter| > 1 && Found(name[1..], filter[1..], false)
  }

  lemma {:induction false} FoundIff(name: seq<string>, filter: seq<string>, plus: bool)
    requires name != [] && filter != []
    requires forall i :: 0 <= i < |name| ==> name[i] != "#" && name[i] != "+"
    ensures Found(name, filter, plus) <==>
              && LevelsMatch(name, filter)
              && !Missed(name, filter)
              && !(plus && name == [""] && filter != [""])
  {
    if |name| == 1 {
      if |filter| > 1 {
        assert LevelsMatch(name[1..], filter[1..]) <==> filter[1..] == ["#"];
        assert filter == [filter[0]] + filter[1..];
      }
    } else if |filter| > 1 {
      var n, f := name[1..], filter[1..];
      FoundIff(n, f, filter[0] == "+");
      MissedTail(name, filter);
    }
  }

  lemma MissedTail(name: seq<string>, filter: seq<string>)
    requires |name| > 1 && |filter| > 1
    ensures Missed(name, filter) <==>
              || Missed(name[1..], filter[1..])
              || (filter[0] == "+" && name[1..] == [""] && filter[1..] != [""])
  {}

  // ----- levels and characters

  lemma LevelsOfSeparator(s: string)
    requires s != "" && s[0] == '/'
    ensures Levels(s)[0] == "" && Levels(s)[1..] == Levels(s[1..])
  {}

  lemma LevelsOfCharacter(s: string)
    requires s != "" && s[0] != '/'
    ensures Levels(s)[0] == [s[0]] + Levels(s[1..])[0]
    ensures Levels(s)[1..] == Levels(s[1..])[1..]
  {}

  lemma {:induction false} LevelsInjective(s: string, t: string)
    requires Levels(s) == Levels(t)
    ensures s == t
  {
    if s != "" && t != "" {
      if s[0] == '/' && t[0] == '/' {
        LevelsOfSeparator(s);
        LevelsOfSeparator(t);
        LevelsInjective(s[1..], t[1..]);
      } else if s[0] != '/' && t[0] != '/' {
        LevelsOfCharacter(s);
        LevelsOfCharacter(t);
        assert Levels(s)[0][0] == s[0] && Levels(t)[0][0] == t[0];
        assert Levels(s)[0][1..] == Levels(s[1..])[0] && Levels(t)[0][1..] == Levels(t[1..])[0];
        var a, b := Levels(s[1..]), Levels(t[1..]);
        assert a == [a[0]] + a[1..] && b == [b[0]] + b[1..];
        LevelsInjective(s[1..], t[1..]);
      }
    }
  }

  lemma {:induction false} LevelsWithout(s: string, c: char)
    requires c !in s
    ensures forall i :: 0 <= i < |Levels(s)| ==> c !in Levels(s)[i] && Levels(s)[i] != [c]
  {
    assert c in [c];
    if s != "" {
      LevelsWithout(s[1..], c);
    }
  }

  // ----- one step of the matcher

  /** Inside a level: its remaining characters must be equal, the levels behind it match as usual. */
  predicate FoundInside(name: seq<string>, filter: seq<string>)
    requires name != [] && filter != []
  {
    && name[0] == filter[0]
    && if |name| == 1 then filter == name || filter == name + ["#"]
       else |filter| > 1 && Found(name[1..], filter[1..], false)
  }

  /** The outcome from a pair of positions on. At the end of the name only the end of the filter counts. */
  predicate FoundFrom(name: string, filter: string, levelStart: bool) {
    if name == "" then filter == ""
    else if levelStart then Found(Levels(name), Levels(filter), false)
    else FoundInside(Levels(name), Levels(filter))
  }

  /** The special endings that are looked for when the last character of the name has just matched. */
  predicate SpecialEnding(filter: string) {
    || (|filter| == 3 && filter[1] == '/' && filter[2] == '#')
    || (|filter| == 2 && filter[0] == '/' && IsWildcard(filter[1]))
  }

  lemma {:induction false} ShortLevels(c: char)
    requires c != '/'
    ensures Levels("") == [""] && Levels([c]) == [[c]] && Levels("/" + [c]) == ["", [c]]
  {
    LevelsOfCharacter([c]);
    assert [c][1..] == "" && [c] + "" == [c];
    assert Levels([c]) == [Levels([c])[0]] + Levels([c])[1..];
    assert ("/" + [c])[1..] == [c];
  }

  lemma {:induction false} ParentLevels(c: char)
    ensures Levels([c] + "/#") == if c == '/' then ["", "", "#"] else [[c], "#"]
  {
    ShortLevels('#');
    assert "/#" == "/" + ['#'] && ([c] + "/#")[1..] == "/#";
    if c != '/' {
      LevelsOfCharacter([c] + "/#");
      var l := Levels([c] + "/#");
      assert l == [l[0]] + l[1..] && [c] + "" == [c];
    }
  }

  lemma {:induction false} EqualCharacter(name: string, filter: string, levelStart: bool)
    requires name != "" && filter != "" && name[0] == filter[0] && name[0] != '/' && !IsWildcard(name[0])
    ensures FoundFrom(name, filter, levelStart)
            <==> (|name| == 1 && SpecialEnding(filter)) || FoundFrom(name[1..], filter[1..], false)
  {
    var n, f := Levels(name), Levels(filter);
    LevelsOfCharacter(name);
    LevelsOfCharacter(filter);
    assert f[0][0] == filter[0] && f != ["#"] && f[0] != "+";
    assert Found(n, f, false) <==> FoundInside(n, f);
    var n', f' := Levels(name[1..]), Levels(filter[1..]);
    assert n' == [n'[0]] + n[1..] && f' == [f'[0]] + f[1..];
    if |name| == 1 {
      ShortLevels(name[0]);
      ParentLevels(name[0]);
      assert name == [name[0]];
      if f == n { LevelsInjective(name, filter); }
      if f == n + ["#"] { LevelsInjective(filter, [name[0]] + "/#"); }
      assert SpecialEnding(filter) ==> filter == [name[0]] + "/#";
      assert filter[1..] == "" ==> filter == [name[0]];
    } else {
      assert name[1..] != "";
      assert n[0][1..] == n'[0] && f[0][1..] == f'[0];
      if f == n + ["#"] || f' == n' + ["#"] { assert |f| == |n| + 1; }
    }
  }

  /** What a filter may have left when the name ends right behind a separator. */
  lemma {:induction false} EmptyLastLevel(rest: string)
    ensures Found([""], Levels(rest), false) <==> rest in ["", "+", "#", "/#"]
  {
    ShortLevels('+');
    ShortLevels('#');
    assert "+" == ['+'] && "#" == ['#'] && "/#" == "/" + ['#'];
    var l := Levels(rest);
    if l == Levels("") { LevelsInjective(rest, ""); }
    if l == Levels("+") { LevelsInjective(rest, "+"); }
    if l == Levels("#") { LevelsInjective(rest, "#"); }
    if l == Levels("/#") { LevelsInjective(rest, "/#"); }
    assert Found([""], l, false) <==> l == ["#"] || l == ["+"] || l == [""] || l == ["", "#"];
  }

  lemma {:induction false} EqualSeparator(name: string, filter: string, levelStart: bool)
    requires name != "" && filter != "" && name[0] == filter[0] == '/'
    ensures FoundFrom(name, filter, levelStart)
            <==> (|name| == 1 && SpecialEnding(filter)) || FoundFrom(name[1..], filter[1..], true)
  {
    var n, f := Levels(name), Levels(filter);
    LevelsOfSeparator(name);
    LevelsOfSeparator(filter);
    assert FoundFrom(name, filter, levelStart) <==> Found(n[1..], f[1..], false);
    if |name| == 1 {
      assert n[1..] == [""] && name[1..] == "";
      EmptyLastLevel(filter[1..]);
      assert filter[1..] in ["+", "#", "/#"] ==> SpecialEnding(filter);
      if SpecialEnding(filter) {
        assert filter[1..] == if |filter| == 3 then "/#" else if filter[1] == '+' then "+" else "#";
      }
    }
  }

  /** Where the present level of the name ends. */
  function LevelEnd(name: string): (k: nat)
    ensures k <= |name|
    ensures k < |name| ==> name[k] == '/'
    ensures forall i :: 0 <= i < k ==> name[i] != '/'
  {
    if name == "" || name[0] == '/' then 0 else 1 + LevelEnd(name[1..])
  }

  lemma {:induction false} LevelsAtEnd(name: string)
    ensures var k := LevelEnd(name);
            && Levels(name)[0] == name[..k]
            && if k == |name| then Levels(name) == [name]
               else Levels(name)[1..] == Levels(name[k + 1..])
  {
    if name != "" && name[0] != '/' {
      LevelsAtEnd(name[1..]);
      LevelsOfCharacter(name);
      var k := LevelEnd(name);
      assert name[..k] == [name[0]] + name[1..][..k - 1];
      if k == |name| {
        assert name[..k] == name;
        assert Levels(name) == [Levels(name)[0]] + Levels(name)[1..];
      } else {
        assert name[1..][k..] == name[k + 1..];
      }
    }
  }

  lemma {:induction false} PlusLevel(filter: string)
    requires filter != "" && filter[0] == '+'
    ensures Levels(filter)[0] == "+" <==> |filter| == 1 || filter[1] == '/'
    ensures |filter| > 1 && filter[1] == '/' ==> Levels(filter)[1..] == Levels(filter[2..])
    ensures |filter| == 1 ==> Levels(filter) == ["+"]
    ensures Levels(filter) == ["+"] ==> |filter| == 1
  {}

  /** A "+" at the start of a level: the name moves to the end of its level. */
  lemma {:induction false} SingleLevelWildcard(name: string, filter: string)
    requires name != "" && filter != "" && filter[0] == '+' && WildcardFree(name)
    ensures var k := LevelEnd(name);
            FoundFrom(name, filter, true)
            <==> if k == |name| then |filter| == 1
                 else |filter| > 1 && filter[1] == '/' && FoundFrom(name[k + 1..], filter[2..], true)
  {
    var k, n, f := LevelEnd(name), Levels(name), Levels(filter);
    LevelsAtEnd(name);
    PlusLevel(filter);
    assert f[0][0] == '+' by { LevelsOfCharacter(filter); }
    assert '+' !in name by { assert IsWildcard('+'); }
    assert '+' !in name[..k];
    assert '+' in f[0];
    if k < |name| {
      if |filter| > 1 && filter[1] == '/' {
        assert FoundFrom(name, filter, true) <==> Found(n[1..], f[1..], true);
        PlusIrrelevant(name[k + 1..], filter[2..]);
      }
    }
  }

  lemma {:induction false} PlusIrrelevant(name: string, filter: string)
    ensures Found(Levels(name), Levels(filter), true) <==> FoundFrom(name, filter, true)
  {
    if name == "" {
      if Levels(filter) == [""] { LevelsInjective(filter, ""); }
    } else if Levels(name) == [""] {
      LevelsInjective(name, "");
    }
  }

  lemma {:induction false} MultiLevelWildcard(name: string)
    requires name != ""
    ensures FoundFrom(name, "#", true)
  {
    ShortLevels('#');
    assert "#" == ['#'];
  }

  lemma {:induction false} Mismatch(name: string, filter: string, levelStart: bool)
    requires name != "" && filter != "" && name[0] != filter[0] && WildcardFree(name)
    requires levelStart ==> filter[0] != '+' && filter != "#"
    ensures !FoundFrom(name, filter, levelStart)
  {
    var n, f := Levels(name), Levels(filter);
    LevelsAtEnd(name);
    LevelsAtEnd(filter);
    assert n[0] != f[0] by {
      if name[0] != '/' { LevelsOfCharacter(name); assert n[0][0] == name[0]; }
      if filter[0] != '/' { LevelsOfCharacter(filter); assert f[0][0] == filter[0]; }
    }
    if levelStart {
      ShortLevels('#');
      assert "#" == ['#'];
      if f == ["#"] { LevelsInjective(filter, "#"); }
    }
  }

  // ----- the matcher

  predicate AtLevelStart(filter: string, filterIndex: nat)
    requires filterIndex <= |filter|
  {
    filterIndex == 0 || filter[filterIndex - 1] == '/'
  }

  /** The outcome from a pair of indexes on. */
  predicate Rest(name: string, filter: string, i: nat, j: nat)
    requires i <= |name| && j <= |filter|
  {
    FoundFrom(name[i..], filter[j..], AtLevelStart(filter, j))
  }

  lemma {:induction false} EqualStep(name: string, filter: string, i: nat, j: nat)
    requires WildcardFree(name) && i < |name| && j < |filter| && name[i] == filter[j]
    ensures Rest(name, filter, i, j)
            <==> (i == |name| - 1 && SpecialEnding(filter[j..])) || Rest(name, filter, i + 1, j + 1)
  {
    var n, f := name[i..], filter[j..];
    assert n[1..] == name[i + 1..] && f[1..] == filter[j + 1..] && n[0] == f[0];
    if name[i] == '/' {
      EqualSeparator(n, f, AtLevelStart(filter, j));
    } else {
      EqualCharacter(n, f, AtLevelStart(filter, j));
    }
  }

  /** A "+" at the start of a level, with the name's level ending at index e. */
  lemma {:induction false} PlusStep(name: string, filter: string, i: nat, j: nat, e: nat)
    requires WildcardFree(name) && i < |name| && j < |filter| && filter[j] == '+' && AtLevelStart(filter, j)
    requires i <= e <= |name| && e - i == LevelEnd(name[i..])
    ensures Rest(name, filter, i, j)
            <==> if e == |name| then j == |filter| - 1
                 else j < |filter| - 1 && filter[j + 1] == '/' && Rest(name, filter, e + 1, j + 2)
  {
    var n, f := name[i..], filter[j..];
    assert WildcardFree(n);
    SingleLevelWildcard(n, f);
    if e < |name| && j < |filter| - 1 {
      assert n[e - i + 1..] == name[e + 1..] && f[2..] == filter[j + 2..];
    }
  }

  lemma {:induction false} MismatchStep(name: string, filter: string, i: nat, j: nat)
    requires WildcardFree(name) && i < |name| && j < |filter| && name[i] != filter[j]
    requires AtLevelStart(filter, j) ==> filter[j] != '+'
    ensures Rest(name, filter, i, j) <==> filter[j] == '#' && j == |filter| - 1 && AtLevelStart(filter, j)
  {
    var n, f := name[i..], filter[j..];
    if AtLevelStart(filter, j) && f == "#" {
      MultiLevelWildcard(n);
    } else {
      Mismatch(n, f, AtLevelStart(filter, j));
    }
  }

  lemma {:induction false} RestAtStart(name: string, filter: string)
    requires name != ""
    ensures Rest(name, filter, 0, 0) == Found(Levels(name), Levels(filter), false)
  {}

  lemma {:induction false} RestAtEnd(name: string, filter: string, i: nat, j: nat)
    requires i <= |name| && j <= |filter| && (i == |name| || j == |filter|)
    ensures Rest(name, filter, i, j) <==> i == |name| && j == |filter|
  {}

  method MatchEndWildcardsSpecialCases(filter: string, filterIndex: nat) returns (match_: bool)
    requires filterIndex < |filter|
    ensures match_ == SpecialEnding(filter[filterIndex..])
  {
    match_ := false;
    if |filter| >= 3 && filterIndex == |filter| - 3 && filter[filterIndex + 1] == '/' && filter[filterIndex + 2] == '#' {
      match_ := true;
    }
    if |filter| >= 2 && filterIndex == |filter| - 2 && filter[filterIndex] == '/' {
      match_ := filter[filterIndex + 1] == '+' || filter[filterIndex + 1] == '#';
    }
  }

  method EndOfLevel(name: string, start: nat) returns (index: nat)
    requires start < |name|
    ensures start <= index <= |name| && index - start == LevelEnd(name[start..])
  {
    index := start;
    while index < |name| && name[index] != '/'
      invariant start <= index <= |name|
      invariant forall i :: start <= i < index ==> name[i] != '/'
    {
      index := index + 1;
    }
  }

  /** Called when the characters at the two indexes differ. */
  method MatchWildcards(name: string, filter: string, nameIndex: nat, filterIndex: nat)
    returns (nameIndex': nat, filterIndex': nat, match_: bool, stop: bool)
    requires nameIndex < |name| && filterIndex < |filter| && name[nameIndex] != filter[filterIndex]
    ensures nameIndex <= nameIndex' < |name| && filterIndex <= filterIndex' < |filter|
    ensures !stop ==> !match_
    ensures WildcardFree(name) ==>
              Rest(name, filter, nameIndex, filterIndex)
              == if stop then match_ else Rest(name, filter, nameIndex' + 1, filterIndex' + 1)
  {
    hide Rest, WildcardFree;
    nameIndex', filterIndex', match_, stop := nameIndex, filterIndex, false, false;
    var locationIsValidForWildcard := AtLevelStart(filter, filterIndex);
    if filter[filterIndex] == '+' && locationIsValidForWildcard {
      nameIndex' := EndOfLevel(name, nameIndex);
      var nextLevelExistsInTopicName := nameIndex' < |name|;
      var nextLevelExistsInTopicFilter := filterIndex < |filter| - 1 && filter[filterIndex + 1] == '/';
      if WildcardFree(name) { PlusStep(name, filter, nameIndex, filterIndex, nameIndex'); }
      if nextLevelExistsInTopicName && !nextLevelExistsInTopicFilter {
        match_, stop := false, true;
      } else if nextLevelExistsInTopicName {
        filterIndex' := filterIndex + 1;
      } else {
        nameIndex' := nameIndex' - 1;
        RestAtEnd(name, filter, |name|, filterIndex + 1);
      }
    } else {
      if WildcardFree(name) { MismatchStep(name, filter, nameIndex, filterIndex); }
      stop := true;
      match_ := filter[filterIndex] == '#' && filterIndex == |filter| - 1 && locationIsValidForWildcard;
    }
  }

  method MatchTopicFilter(name: string, filter: string) returns (matchFound: bool)
    requires name != "" && filter != ""
    ensures WildcardFree(name) ==> matchFound == Found(Levels(name), Levels(filter), false)
  {
    hide Rest, Found, SpecialEnding, WildcardFree;
    matchFound := false;
    var shouldStopMatching := false;
    var nameIndex, filterIndex := 0, 0;
    RestAtStart(name, filter);
    while nameIndex < |name| && filterIndex < |filter|
      invariant 0 <= nameIndex <= |name| && 0 <= filterIndex <= |filter|
      invariant !matchFound && !shouldStopMatching
      invariant WildcardFree(name) ==>
                  Rest(name, filter, nameIndex, filterIndex) == Found(Levels(name), Levels(filter), false)
      decreases |name| - nameIndex
    {
      if name[nameIndex] == filter[filterIndex] {
        if WildcardFree(name) { EqualStep(name, filter, nameIndex, filterIndex); }
        if nameIndex == |name| - 1 {
          matchFound := MatchEndWildcardsSpecialCases(filter, filterIndex);
        }
      } else {
        nameIndex, filterIndex, matchFound, shouldStopMatching := MatchWildcards(name, filter, nameIndex, filterIndex);
      }
      if matchFound || shouldStopMatching {
        break;
      }
      nameIndex := nameIndex + 1;
      filterIndex := filterIndex + 1;
    }
    if !matchFound {
      if !shouldStopMatching { RestAtEnd(name, filter, nameIndex, filterIndex); }
      matchFound := nameIndex == |name| && filterIndex == |filter|;
    }
  }

  /** C's strncmp(a, b, n) == 0 for n characters of each: nothing behind a common null character counts. */
  predicate StrnEqual(a: string, b: string)
    requires |a| == |b|
  {
    a == "" || (a[0] == b[0] && (a[0] == '\0' || StrnEqual(a[1..], b[1..])))
  }

  lemma {:induction false} StrnEqualIsEqual(a: string, b: string)
    requires |a| == |b| && forall c <- a :: c != '\0'
    ensures StrnEqual(a, b) <==> a == b
  {
    if a != "" {
      assert a[0] in a && forall c <- a[1..] :: c in a;
      StrnEqualIsEqual(a[1..], b[1..]);
      assert a == [a[0]] + a[1..] && b == [b[0]] + b[1..];
    }
  }

  /** Both of the matcher's stages agree with the definition up to the missed pairs. */
  lemma {:induction false} FoundIsMatch(name: string, filter: string)
    requires IsTopicName(name)
    ensures Found(Levels(name), Levels(filter), false)
            <==> LevelsMatch(Levels(name), Levels(filter)) && !Missed(Levels(name), Levels(filter))
  {
    var n := Levels(name);
    LevelsWithout(name, '#');
    LevelsWithout(name, '+');
    FoundIff(n, Levels(filter), false);
  }

  lemma {:induction false} LevelsMatchSelf(n: seq<string>)
    requires forall i :: 0 <= i < |n| ==> n[i] != "#" && n[i] != "+"
    ensures LevelsMatch(n, n) && !Missed(n, n)
  {
    if n != [] {
      LevelsMatchSelf(n[1..]);
    }
  }

  lemma {:induction false} NameMatchesItself(name: string)
    requires IsTopicName(name)
    ensures TopicMatches(name, name) && !Missed(Levels(name), Levels(name))
  {
    var n := Levels(name);
    LevelsWithout(name, '#');
    LevelsWithout(name, '+');
    LevelsMatchSelf(n);
  }

  datatype MatchResult = BadParameter | Match(isMatch: bool)

  /** For every topic name and every filter, also malformed ones: a match is reported exactly when the
      filter matches by section 4.7 and the pair is none of the missed ones. */
  method MatchTopic(name: string, filter: string) returns (r: MatchResult)
    requires |name| < 0x1_0000 && |filter| < 0x1_0000
    ensures r.BadParameter? <==> name == "" || filter == ""
    ensures r.Match? && IsTopicName(name) ==>
              (r.isMatch <==> TopicMatches(name, filter) && !Missed(Levels(name), Levels(filter)))
  {
    if name == "" || filter == "" {
      return BadParameter;
    }
    if IsTopicName(name) {
      FoundIsMatch(name, filter);
      NameMatchesItself(name);
    }
    var matchStatus := false;
    if |name| == |filter| {
      matchStatus := StrnEqual(name, filter);
      if IsTopicName(name) { StrnEqualIsEqual(name, filter); }
    }
    if !matchStatus {
      var topicFilterStartsWithWildcard := filter[0] == '+' || filter[0] == '#';
      if !(name[0] == '$' && topicFilterStartsWithWildcard) {
        matchStatus := MatchTopicFilter(name, filter);
      }
    }
    return Match(matchStatus);
  }

  /** Filters whose only wildcard is a final "#" are never affected. */
  lemma {:induction false} HashFiltersComplete(name: string, filter: string)
    requires '+' !in filter
    ensures !Missed(Levels(name), Levels(filter))
  {
    LevelsWithout(filter, '+');
  }

  /** The two kinds of missed pairs do occur. */
  lemma MissedPairs()
    ensures TopicMatches("sport", "+/#") && Missed(Levels("sport"), Levels("+/#"))
    ensures TopicMatches("a/", "+/+") && Missed(Levels("a/"), Levels("+/+"))
  {
    LevelsAtEnd("sport");
    ShortLevels('#');
    ShortLevels('+');
    ShortLevels('a');
    LevelsAtEnd("+/#");
    LevelsAtEnd("+/+");
    LevelsAtEnd("a/");
    assert "+/#"[2..] == ['#'] && "+/+"[2..] == ['+'] && "a/"[2..] == "";
    assert "+/#"[..1] == "+" && "+/+"[..1] == "+" && "a/"[..1] == "a";
    assert LevelEnd("+/#") == 1 && LevelEnd("+/+") == 1 && LevelEnd("a/") == 1;
    var f, g, n := Levels("+/#"), Levels("+/+"), Levels("a/");
    assert f == [f[0]] + f[1..] && g == [g[0]] + g[1..] && n == [n[0]] + n[1..];
  }
}
