/**
 Topic filters and the three wildcard matchers of the broker: of the local table, of
 the mesh route table, and of the publishes kept for peers not connected yet.

 The matchers walk two NUL-terminated strings character by character.  A string
 is modelled as the characters before its NUL, so the current pointer is an
 index and `*p == '\0'` is `p == |s|`.

 `Walk` is the rest of the walk from two suffixes; the loops below are proved
 against it.  What the walk means is stated level by level: a name is cut at its
 slashes (`Levels`) and filter levels are compared with topic levels.
 */
module TopicFilter {

  /** Neither wildcard occurs (filter_is_exact, filter_is_exact_local). */
  predicate IsExact(s: string) {
    '+' !in s && '#' !in s
  }

  /** The part of a topic left after skipping to the next slash, or to the end. */
  function SkipLevel(t: string): (r: string)
    ensures r == "" || r[0] == '/'
    ensures |r| <= |t|
  {
    if t == "" || t[0] == '/' then t else SkipLevel(t[1..])
  }

  /** What a matcher answers from the suffixes it has reached.  `parentRule` is
      the final test that lets "a/#" match "a"; the mesh router has no such test. */
  predicate Walk(f: string, t: string, parentRule: bool)
    decreases |f|
  {
    if f != "" && t != "" then
      if f[0] == '#' then true
      else if f[0] == '+' then Walk(f[1..], SkipLevel(t), parentRule)
      else f[0] == t[0] && Walk(f[1..], t[1..], parentRule)
    else if f != "" && f[0] == '#' then true
    else if parentRule && f == "/#" && t == "" then true
    else f == "" && t == ""
  }

  predicate StartsWithWildcard(f: string) {
    f != "" && (f[0] == '+' || f[0] == '#')
  }

  predicate IsDollarTopic(t: string) {
    t != "" && t[0] == '$'
  }

  /** The matcher of the local topic table. */
  predicate TopicMatch(f: string, t: string) {
    !(IsDollarTopic(t) && StartsWithWildcard(f)) && Walk(f, t, true)
  }

  /** The matcher of the mesh route table. */
  predicate RouterMatch(f: string, t: string) {
    Walk(f, t, false)
  }

  /** The third walk, of the publishes kept for later: no '$' rule, and '#' is met only
      while there is topic left or as a final "/#" when there is none. */
  predicate PendingMatch(f: string, t: string)
    decreases |f|
  {
    if f != "" && t != "" then
      if f[0] == '#' then |f| == 1
      else if f[0] == '+' then
        var g, u := f[1..], SkipLevel(t);
        if g != "" && g[0] == '/' && u != "" then PendingMatch(g[1..], u[1..]) else PendingMatch(g, u)
      else f[0] == t[0] && PendingMatch(f[1..], t[1..])
    else f == "/#" || (f == "" && t == "")
  }

  // ---------- the loops ----------

  /** The shared loop: both pointers advance until one string is exhausted. */
  method WalkLoop(filter: string, topic: string, parentRule: bool) returns (r: bool)
    ensures r == Walk(filter, topic, parentRule)
  {
    var f, t := 0, 0;
    while f < |filter| && t < |topic|
      invariant 0 <= f <= |filter| && 0 <= t <= |topic|
      invariant Walk(filter[f..], topic[t..], parentRule) == Walk(filter, topic, parentRule)
      decreases |filter| - f
    {
      assert filter[f..][1..] == filter[f+1..];
      if filter[f] == '#' {
        return true;
      }
      if filter[f] == '+' {
        t := SkipFrom(topic, t);
        f := f + 1;
      } else {
        if filter[f] != topic[t] {
          return false;
        }
        assert topic[t..][1..] == topic[t+1..];
        f := f + 1;
        t := t + 1;
      }
    }
    if f < |filter| && filter[f] == '#' {
      return true;
    }
    if parentRule && f + 2 == |filter| && filter[f] == '/' && filter[f+1] == '#' && t == |topic| {
      return true;
    }
    return f == |filter| && t == |topic|;
  }

  method TopicMatchLoop(filter: string, topic: string) returns (r: bool)
    ensures r == TopicMatch(filter, topic)
  {
    if topic != "" && topic[0] == '$' && filter != "" && (filter[0] == '+' || filter[0] == '#') {
      return false;
    }
    r := WalkLoop(filter, topic, true);
  }

  method RouterMatchLoop(filter: string, topic: string) returns (r: bool)
    ensures r == RouterMatch(filter, topic)
  {
    r := WalkLoop(filter, topic, false);
  }

  /** topic_match_local of the peer code. */
  method PendingMatchLoop(filter: string, topic: string) returns (r: bool)
    ensures r == PendingMatch(filter, topic)
  {
    var f, t := 0, 0;
    while f < |filter| && t < |topic|
      invariant 0 <= f <= |filter| && 0 <= t <= |topic|
      invariant PendingMatch(filter[f..], topic[t..]) == PendingMatch(filter, topic)
      decreases |filter| - f
    {
      assert filter[f..][1..] == filter[f+1..];
      assert topic[t..][1..] == topic[t+1..];
      if filter[f] == '#' {
        return f + 1 == |filter|;
      }
      if filter[f] == '+' {
        t := SkipFrom(topic, t);
        f := f + 1;
        if f < |filter| && filter[f] == '/' && t < |topic| && topic[t] == '/' {
          assert filter[f..][1..] == filter[f+1..] && topic[t..][1..] == topic[t+1..];
          f := f + 1;
          t := t + 1;
        }
        continue;
      }
      if filter[f] != topic[t] {
        return false;
      }
      f := f + 1;
      t := t + 1;
    }
    if f + 2 == |filter| && filter[f] == '/' && filter[f+1] == '#' {
      assert filter[f..] == "/#";
      return true;
    }
    return f == |filter| && t == |topic|;
  }

  method SkipFrom(topic: string, from: nat) returns (t: nat)
    requires from <= |topic|
    ensures from <= t <= |topic| && topic[t..] == SkipLevel(topic[from..])
  {
    t := from;
    while t < |topic| && topic[t] != '/'
      invariant from <= t <= |topic|
      invariant SkipLevel(topic[t..]) == SkipLevel(topic[from..])
    {
      assert topic[t..][1..] == topic[t+1..];
      t := t + 1;
    }
  }

  // ---------- levels ----------

  /** A name cut at its slashes; the empty name is one empty level. */
  function Levels(s: string): (r: seq<string>)
    ensures |r| >= 1
  {
    if s == "" then [""]
    else if s[0] == '/' then [""] + Levels(s[1..])
    else var rest := Levels(s[1..]); [[s[0]] + rest[0]] + rest[1..]
  }

  /** Filter levels against topic levels.  `lenientPlus` lets '+' match an empty
      last level and `parentRule` lets a final '#' match zero levels. */
  predicate LevelsMatch(fl: seq<string>, tl: seq<string>, parentRule: bool, lenientPlus: bool) {
    if fl == [] then tl == []
    else if fl[0] == "#" then tl != [] || parentRule
    else if tl == [] then false
    else
      (fl[0] == tl[0] || (fl[0] == "+" && (lenientPlus || tl != [""])))
      && LevelsMatch(fl[1..], tl[1..], parentRule, lenientPlus)
  }

  /** Matching as sections 4.7.1 and 4.7.2 of MQTT 3.1.1 define it. */
  predicate StandardMatch(f: string, t: string) {
    !(IsDollarTopic(t) && StartsWithWildcard(f)) && LevelsMatch(Levels(f), Levels(t), true, true)
  }

  // ---------- valid filters ----------

  /** The placement rules, one character at a time. */
  predicate CharOk(f: string, p: nat)
    requires p < |f|
  {
    && (f[p] == '#' ==> p + 1 == |f| && (p == 0 || f[p-1] == '/'))
    && (f[p] == '+' ==> (p == 0 || f[p-1] == '/') && (p + 1 == |f| || f[p+1] == '/'))
  }

  predicate FilterValid(f: string) {
    f != "" && forall p :: 0 <= p < |f| ==> CharOk(f, p)
  }

  method FilterValidLoop(filter: string) returns (r: bool)
    ensures r == FilterValid(filter)
  {
    if filter == "" {
      return false;
    }
    for p := 0 to |filter|
      invariant forall q :: 0 <= q < p ==> CharOk(filter, q)
    {
      if filter[p] == '#' {
        if p + 1 != |filter| {
          assert !CharOk(filter, p);
          return false;
        }
        if p != 0 && filter[p-1] != '/' {
          assert !CharOk(filter, p);
          return false;
        }
      } else if filter[p] == '+' {
        if p != 0 && filter[p-1] != '/' {
          assert !CharOk(filter, p);
          return false;
        }
        if p + 1 != |filter| && filter[p+1] != '/' {
          assert !CharOk(filter, p);
          return false;
        }
      }
    }
    return true;
  }

  /** Validity read along a suffix: `atStart` says a level starts here. */
  predicate ValidFrom(f: string, atStart: bool) {
    if f == "" then true
    else if f[0] == '#' then atStart && f == "#"
    else if f[0] == '+' then atStart && (f == "+" || f[1] == '/') && ValidFrom(f[1..], false)
    else ValidFrom(f[1..], f[0] == '/')
  }

  /** What the placement rules mean for the levels of a filter. */
  predicate LevelsValid(fl: seq<string>) {
    forall i :: 0 <= i < |fl| ==> IsExact(fl[i]) || fl[i] == "+" || (fl[i] == "#" && i == |fl| - 1)
  }

  lemma {:induction false} ValidSuffix(f: string, i: nat)
    requires i <= |f|
    requires forall p :: 0 <= p < |f| ==> CharOk(f, p)
    ensures ValidFrom(f[i..], i == 0 || f[i-1] == '/')
    decreases |f| - i
  {
    if i < |f| {
      assert CharOk(f, i);
      assert f[i..][1..] == f[i+1..];
      ValidSuffix(f, i + 1);
      if f[i] == '+' && i + 1 < |f| {
        assert f[i..][1] == '/';
      }
    }
  }

  lemma {:induction false} LevelsOfValid(f: string, atStart: bool)
    requires ValidFrom(f, atStart)
    ensures LevelsValid(Levels(f))
    ensures !atStart ==> IsExact(Levels(f)[0])
  {
    if f == "" {
    } else if f[0] == '#' {
      assert Levels(f[1..]) == [""];
    } else if f[0] == '+' {
      LevelsOfValid(f[1..], false);
      var rest := Levels(f[1..]);
      assert rest[0] == "";
      assert [f[0]] + rest[0] == "+";
      assert forall i :: 1 <= i < |rest| ==> Levels(f)[i] == rest[i];
    } else {
      LevelsOfValid(f[1..], f[0] == '/');
      var rest := Levels(f[1..]);
      if f[0] == '/' {
        assert forall i :: 0 <= i < |rest| ==> Levels(f)[i+1] == rest[i];
      } else {
        assert forall i :: 1 <= i < |rest| ==> Levels(f)[i] == rest[i];
      }
    }
  }

  lemma {:induction false} ValidFromLevels(f: string, atStart: bool)
    requires LevelsValid(Levels(f))
    requires !atStart ==> IsExact(Levels(f)[0])
    ensures ValidFrom(f, atStart)
  {
    if f != "" {
      var rest := Levels(f[1..]);
      if f[0] == '/' {
        assert forall i :: 0 <= i < |rest| ==> rest[i] == Levels(f)[i+1];
        ValidFromLevels(f[1..], true);
      } else {
        var fl := Levels(f);
        assert fl[0] == [f[0]] + rest[0];
        assert fl[0][0] == f[0];
        assert forall i :: 1 <= i < |rest| ==> rest[i] == fl[i];
        if f[0] == '#' {
          assert fl[0] == "#" && |fl| == 1;
          assert |rest| == 1 && rest[0] == "";
        } else if f[0] == '+' {
          assert fl[0] == "+";
          assert rest[0] == "";
          ValidFromLevels(f[1..], false);
        } else {
          assert IsExact(fl[0]);
          assert forall c :: c in rest[0] ==> c in fl[0];
          assert IsExact(rest[0]);
          ValidFromLevels(f[1..], false);
        }
      }
    }
  }

  lemma {:induction false} ValidFromChars(f: string, i: nat)
    requires i <= |f| && ValidFrom(f[i..], i == 0 || f[i-1] == '/')
    ensures forall p :: i <= p < |f| ==> CharOk(f, p)
    decreases |f| - i
  {
    if i < |f| {
      assert f[i..][1..] == f[i+1..];
      if f[i] == '#' {
        assert f[i..] == "#";
        assert |f| == i + 1;
      } else {
        ValidFromChars(f, i + 1);
        if f[i] == '+' && f[i..] != "+" {
          assert |f[i..]| > 1;
          assert f[i..][1] == f[i+1];
        }
      }
      assert CharOk(f, i);
    }
  }

  /** topic_filter_valid accepts exactly the non-empty filters whose levels are
      literal, '+', or a final '#'. */
  lemma FilterValidIsLevelwise(f: string)
    ensures FilterValid(f) <==> f != "" && LevelsValid(Levels(f))
  {
    assert f[0..] == f;
    if FilterValid(f) {
      ValidSuffix(f, 0);
      LevelsOfValid(f, true);
    }
    if f != "" && LevelsValid(Levels(f)) {
      ValidFromLevels(f, true);
      ValidFromChars(f, 0);
    }
  }

  // ---------- what the walk means ----------

  lemma {:induction false} LevelsOfSkip(t: string)
    requires t != ""
    ensures SkipLevel(t) == "" ==> |Levels(t)| == 1 && Levels(t)[0] == t
    ensures SkipLevel(t) != "" ==> Levels(t)[1..] == Levels(SkipLevel(t)[1..])
  {
    if t[0] != '/' {
      if t[1..] != "" {
        LevelsOfSkip(t[1..]);
      }
    }
  }

  lemma HashHead(g: string)
    requires ValidFrom(g, true)
    ensures Levels(g)[0] == "#" <==> g != "" && g[0] == '#'
    ensures g != "" && g[0] == '#' <==> g == "#"
  {
    if g != "" {
      if g[0] != '/' {
        var rest := Levels(g[1..]);
        assert Levels(g)[0][0] == g[0];
      }
    }
  }

  /** The char-by-char walk is level-wise matching, with '+' refusing an empty
      last level. */
  lemma {:induction false} WalkIsLevelwise(f: string, t: string, atStart: bool, parentRule: bool)
    requires ValidFrom(f, atStart)
    ensures Walk(f, t, parentRule) == LevelsMatch(Levels(f), Levels(t), parentRule, false)
    decreases |f|
  {
    var fl, tl := Levels(f), Levels(t);
    if f == "" {
      if t != "" {
        if t[0] != '/' {
          assert tl[0] != "";
        } else {
          assert |tl| > 1;
        }
      }
    } else if f[0] == '#' {
      assert Levels(f[1..]) == [""];
      assert [f[0]] + "" == "#";
    } else if f[0] == '+' {
      assert Levels(f[1..])[0] == "";
      assert fl[0] == "+" && fl[1..] == Levels(f[1..])[1..];
      if t != "" {
        var u := SkipLevel(t);
        LevelsOfSkip(t);
        assert tl != [""];
        if f == "+" {
          assert fl[1..] == [];
        } else {
          var g := f[1..][1..];
          assert fl[1..] == Levels(g);
          assert f[1..] == "/" + g;
          HashHead(g);
          if u == "" {
            assert tl[1..] == [];
            assert (f[1..] == "/#") == (g == "#");
          } else {
            assert f[1..][0] == u[0];
            WalkIsLevelwise(g, u[1..], true, parentRule);
          }
        }
      }
    } else if f[0] == '/' {
      var g := f[1..];
      assert f == "/" + g;
      assert fl[0] == "" && fl[1..] == Levels(g);
      HashHead(g);
      if t == "" {
        assert tl[1..] == [];
        assert (f == "/#") == (g == "#");
      } else if t[0] == '/' {
        assert tl[1..] == Levels(t[1..]);
        WalkIsLevelwise(g, t[1..], true, parentRule);
      } else {
        assert tl[0] != "";
      }
    } else {
      LevelsOfValid(f[1..], false);
      var rest := Levels(f[1..]);
      assert fl[0][0] == f[0] && fl[0][1..] == rest[0] && fl[1..] == rest[1..];
      if t != "" && t[0] != '/' {
        var trest := Levels(t[1..]);
        assert tl[0][0] == t[0] && tl[0][1..] == trest[0] && tl[1..] == trest[1..];
        if f[0] == t[0] {
          WalkIsLevelwise(f[1..], t[1..], false, parentRule);
          assert fl[0] == tl[0] <==> rest[0] == trest[0];
        }
      }
    }
  }

  /** The local matcher, for every valid filter and every topic. */
  lemma TopicMatchMeaning(f: string, t: string)
    requires FilterValid(f)
    ensures TopicMatch(f, t) <==>
              !(IsDollarTopic(t) && StartsWithWildcard(f)) &&
              LevelsMatch(Levels(f), Levels(t), true, false)
  {
    assert f[0..] == f;
    ValidSuffix(f, 0);
    WalkIsLevelwise(f, t, true, true);
  }

  /** The mesh router's matcher, for every valid filter and every topic. */
  lemma RouterMatchMeaning(f: string, t: string)
    requires FilterValid(f)
    ensures RouterMatch(f, t) <==> LevelsMatch(Levels(f), Levels(t), false, false)
  {
    assert f[0..] == f;
    ValidSuffix(f, 0);
    WalkIsLevelwise(f, t, true, false);
  }

  // ---------- against the standard ----------

  lemma {:induction false} LevelsLast(t: string)
    ensures Levels(t)[|Levels(t)|-1] == "" <==> t == "" || t[|t|-1] == '/'
  {
    if t != "" {
      LevelsLast(t[1..]);
      var rest := Levels(t[1..]);
      if t[0] != '/' && |rest| == 1 {
        assert Levels(t)[0][0] == t[0];
      }
    }
  }

  lemma {:induction false} LeniencyOnlyAtEmptyLast(fl: seq<string>, tl: seq<string>)
    requires tl == [] || tl[|tl|-1] != ""
    ensures LevelsMatch(fl, tl, true, false) == LevelsMatch(fl, tl, true, true)
  {
    if fl != [] && tl != [] {
      LeniencyOnlyAtEmptyLast(fl[1..], tl[1..]);
    }
  }

  /** The filter made from a topic ending in '/' by putting '+' after it. */
  lemma {:induction false} PlusAfterSlash(t: string, atStart: bool)
    requires IsExact(t)
    requires if t == "" then atStart else t[|t|-1] == '/'
    ensures ValidFrom(t + "+", atStart)
    ensures LevelsMatch(Levels(t + "+"), Levels(t), true, true)
    ensures !Walk(t + "+", t, true)
  {
    var f := t + "+";
    if t == "" {
      assert f == "+";
      assert Levels(f[1..]) == [""];
      assert [f[0]] + "" == "+";
    } else {
      var t' := t[1..];
      assert f[1..] == t' + "+";
      PlusAfterSlash(t', t[0] == '/');
      if t[0] != '/' {
        LevelsOfValid(f[1..], false);
        var a, b := Levels(f[1..]), Levels(t');
        var fl, tl := Levels(f), Levels(t);
        assert fl[0][0] == f[0] && fl[0][1..] == a[0] && fl[1..] == a[1..];
        assert tl[1..] == b[1..];
      }
    }
  }

  /** On a publishable topic the code agrees with the standard for every valid
      filter exactly when the topic is not empty and does not end in '/'. */
  lemma AgreesWithStandard(t: string)
    requires IsExact(t)
    ensures (forall f :: FilterValid(f) ==> (TopicMatch(f, t) <==> StandardMatch(f, t)))
            <==> t != "" && t[|t|-1] != '/'
  {
    LevelsLast(t);
    if t != "" && t[|t|-1] != '/' {
      forall f | FilterValid(f) ensures TopicMatch(f, t) <==> StandardMatch(f, t) {
        TopicMatchMeaning(f, t);
        LeniencyOnlyAtEmptyLast(Levels(f), Levels(t));
      }
    } else {
      var f := t + "+";
      PlusAfterSlash(t, true);
      assert f[0..] == f;
      ValidFromChars(f, 0);
      assert FilterValid(f);
      assert StandardMatch(f, t);
      assert !TopicMatch(f, t);
    }
  }

  // ---------- one matcher against another ----------

  /** A filter without wildcards matches its own text and nothing else. */
  lemma {:induction false} ExactMatchesItself(f: string, t: string, parentRule: bool)
    requires IsExact(f)
    ensures Walk(f, t, parentRule) <==> f == t
  {
    if f != "" && t != "" && f[0] == t[0] {
      ExactMatchesItself(f[1..], t[1..], parentRule);
      assert f == [f[0]] + f[1..] && t == [t[0]] + t[1..];
    }
    assert "/#"[1] == '#';
  }

  predicate EndsInParentRule(f: string) {
    |f| >= 2 && f[|f|-2] == '/' && f[|f|-1] == '#'
  }

  predicate HashOnlyLast(f: string) {
    '#' !in f || (f[|f|-1] == '#' && '#' !in f[..|f|-1])
  }

  lemma {:induction false} ParentRuleGap(f: string, t: string)
    requires HashOnlyLast(f)
    ensures Walk(f, t, true) <==> Walk(f, t, false) || (EndsInParentRule(f) && Walk(f[..|f|-2], t, false))
    ensures EndsInParentRule(f) && Walk(f[..|f|-2], t, false) ==> !Walk(f, t, false)
  {
    if f == "/#" {
      assert f[1..] == "#" && f[..0] == "";
    } else if f != "" && t != "" && f[0] != '#' {
      assert |f| > 1 ==> f[..|f|-1][1..] == f[1..][..|f|-2];
      var u := if f[0] == '+' then SkipLevel(t) else t[1..];
      ParentRuleGap(f[1..], u);
      if EndsInParentRule(f) {
        var g := f[..|f|-2];
        assert g[1..] == f[1..][..|f|-3];
      }
    } else if EndsInParentRule(f) {
      assert f[0] != '#' by { assert f[..|f|-1][0] == f[0]; }
      assert f[..|f|-2] != "" by { assert f == f[..|f|-2] + "/#"; }
    }
  }

  lemma ValidHashIsLast(f: string)
    requires FilterValid(f)
    ensures HashOnlyLast(f)
  {
    forall p | 0 <= p < |f| && f[p] == '#' ensures p == |f| - 1 {
      assert CharOk(f, p);
    }
  }

  /** Where the mesh and the local table part: the mesh lacks the parent rule
      (a publish to "a" is not routed to a subscriber of "a/#") and the
      '$' rule (a publish to "$x" is routed to a subscriber of "#"). */
  lemma LocalAgainstRouter(f: string, t: string)
    requires FilterValid(f)
    ensures TopicMatch(f, t) && !RouterMatch(f, t) <==>
              EndsInParentRule(f) && TopicMatch(f[..|f|-2], t)
    ensures RouterMatch(f, t) && !TopicMatch(f, t) <==>
              IsDollarTopic(t) && StartsWithWildcard(f) && RouterMatch(f, t)
  {
    ValidHashIsLast(f);
    ParentRuleGap(f, t);
    if EndsInParentRule(f) {
      var g := f[..|f|-2];
      assert '#' !in g by { assert forall c :: c in g ==> c in f[..|f|-1]; }
      ParentRuleGap(g, t);
      assert g != "" ==> g[0] == f[0];
      if g == "" { assert f == "/#"; }
    }
  }

  predicate EndsInHash(f: string) {
    f != "" && f[|f|-1] == '#'
  }

  lemma FirstInFront(f: string)
    requires f != ""
    ensures |f| == 1 || f[0] in f[..|f|-1]
  {
    if |f| > 1 {
      assert f[..|f|-1][0] == f[0];
    }
  }

  lemma {:induction false} PendingGap(f: string, t: string)
    requires HashOnlyLast(f)
    ensures PendingMatch(f, t) <==> Walk(f, t, true) && !(EndsInHash(f) && Walk(f[..|f|-1], t, false))
    decreases |f|
  {
    if f != "" && t != "" && f[0] != '#' {
      var g, u := f[1..], if f[0] == '+' then SkipLevel(t) else t[1..];
      assert |f| > 1 ==> f[..|f|-1][1..] == g[..|g|-1];
      if f[0] == '+' && g != "" && g[0] == '/' && u != "" {
        assert |g| > 1 ==> g[..|g|-1][1..] == g[1..][..|g|-2];
        PendingGap(g[1..], u[1..]);
      } else {
        PendingGap(g, u);
      }
    } else if f != "" && f[0] == '#' {
      FirstInFront(f);
    } else if f != "" {
      assert f == "/#" ==> f[..1] == "/";
    }
  }

  /** The third walk leaves out what the local one takes exactly when the filter ends
      in '#' and matches without it, as "a/#" does on "a/"; the rule for topics
      starting with '$' it does not have. */
  lemma PendingAgainstLocal(f: string, t: string)
    requires FilterValid(f)
    ensures TopicMatch(f, t) && !PendingMatch(f, t) <==> TopicMatch(f, t) && EndsInHash(f) && RouterMatch(f[..|f|-1], t)
    ensures PendingMatch(f, t) && !TopicMatch(f, t) <==>
              IsDollarTopic(t) && StartsWithWildcard(f) && PendingMatch(f, t)
  {
    ValidHashIsLast(f);
    PendingGap(f, t);
  }

  /** The local matcher refuses a leading wildcard for a topic starting with '$', and is
      otherwise the plain walk; the mesh matcher is the walk without the parent rule. */
  lemma DollarRule(f: string, t: string)
    ensures TopicMatch(f, t) <==> Walk(f, t, true) && !(t != "" && t[0] == '$' && f != "" && (f[0] == '+' || f[0] == '#'))
    ensures RouterMatch(f, t) <==> Walk(f, t, false)
  {}

  /** One topic for each difference: below "a/#", "a" itself is local only; "$x" is for
      "#" in the mesh only; "a/" is for "a/#" everywhere but in the third walk; and "a/"
      is for "a/+" in the standard only. */
  lemma MatchersPart()
    ensures TopicMatch("a/#", "a") && !RouterMatch("a/#", "a")
    ensures RouterMatch("#", "$x") && !TopicMatch("#", "$x")
    ensures TopicMatch("a/#", "a/") && RouterMatch("a/#", "a/") && !PendingMatch("a/#", "a/")
    ensures StandardMatch("a/+", "a/") && !TopicMatch("a/+", "a/")
  {
    var h, p, t := "a/#", "a/+", "a/";
    assert h[1..] == "/#" && h[1..][1..] == "#" && p[1..] == "/+" && p[1..][1..] == "+" && p[1..][1..][1..] == "";
    assert t[1..] == "/" && t[1..][1..] == "" && "a"[1..] == "";
    assert "$x"[0] == '$' && "#"[0] == '#' && "/#"[0] == '/' && "+"[0] == '+';
    PlusAfterSlash(t, true);
    assert t + "+" == p;
  }
}
