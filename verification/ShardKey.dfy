/**
 Shard keys (p2p_shard.c): the leading levels of a topic or filter that pick the
 router owning it, and when a filter shares its key with every topic it matches.
 */
module ShardKey {
  import opened TopicFilter

  const KEY_LEVELS: nat := 2

  /** The characters a MQTT_TOPIC_MAX buffer holds before its NUL. */
  const KEY_ROOM: nat := 127

  predicate IsWild(c: char) {
    c == '+' || c == '#'
  }

  /** How many characters of a suffix are copied, after `slashes` slashes. */
  function Cut(s: string, slashes: nat, room: nat): (n: nat)
    ensures n <= |s| && n <= room
  {
    if s == "" || room == 0 || IsWild(s[0]) then 0
    else if s[0] == '/' && slashes + 1 >= KEY_LEVELS then 1
    else 1 + Cut(s[1..], if s[0] == '/' then slashes + 1 else slashes, room - 1)
  }

  function TrimSlashes(s: string): string {
    if s != "" && s[|s|-1] == '/' then TrimSlashes(s[..|s|-1]) else s
  }

  function KeyOf(s: string): string {
    TrimSlashes(s[..Cut(s, 0, KEY_ROOM)])
  }

  /** shard_key_from_str: copy until a wildcard, the second slash or the end of the
      buffer, then drop trailing slashes. */
  method KeyFromStr(src: string) returns (key: string)
    ensures key == KeyOf(src)
  {
    var out := new char[KEY_ROOM](_ => '/');
    var len, slashes := 0, 0;
    while len < |src| && len < KEY_ROOM
      invariant 0 <= len <= |src| && len <= KEY_ROOM
      invariant out[..len] == src[..len]
      invariant len + Cut(src[len..], slashes, KEY_ROOM - len) == Cut(src, 0, KEY_ROOM)
    {
      assert src[len..][1..] == src[len+1..];
      if IsWild(src[len]) {
        break;
      }
      out[len] := src[len];
      len := len + 1;
      if src[len-1] == '/' {
        slashes := slashes + 1;
        if slashes >= KEY_LEVELS {
          break;
        }
      }
    }
    assert out[..len] == src[..Cut(src, 0, KEY_ROOM)];
    key := DropSlashes(out, len);
  }

  /** The trimming loop. */
  method DropSlashes(out: array<char>, end: nat) returns (key: string)
    requires end <= out.Length
    ensures key == TrimSlashes(out[..end])
  {
    var len := end;
    while len > 0 && out[len-1] == '/'
      invariant 0 <= len <= end
      invariant TrimSlashes(out[..len]) == TrimSlashes(out[..end])
    {
      assert out[..len][..len-1] == out[..len-1];
      len := len - 1;
    }
    return out[..len];
  }

  // ---------- what the key says about its source ----------

  /** Only a name with nothing before its first wildcard or second slash but slashes
      has the empty key. */
  lemma EmptyKeyIff(s: string)
    ensures KeyOf(s) == "" <==>
              || s == "" || IsWild(s[0])
              || (s[0] == '/' && (|s| == 1 || s[1] == '/' || IsWild(s[1])))
  {
    var n := Cut(s, 0, KEY_ROOM);
    if s != "" && s[0] == '/' {
      CutAfterSlash(s);
    }
    if n > 0 {
      TrimLength(s[..n], 0);
      TrimLength(s[..n], 1);
      if n <= 2 && s[0] == '/' && (n == 1 || s[1] == '/') {
        TrimAllSlashes(s[..n]);
      }
    }
  }

  /** No slash and no wildcard. */
  predicate IsPlain(s: string) {
    '/' !in s && '+' !in s && '#' !in s
  }

  lemma {:induction false} CutPlain(a: string, rest: string, slashes: nat, room: nat)
    requires IsPlain(a) && |a| <= room
    ensures Cut(a + rest, slashes, room) == |a| + Cut(rest, slashes, room - |a|)
  {
    if a == "" {
      assert a + rest == rest;
    } else {
      assert (a + rest)[1..] == a[1..] + rest;
      CutPlain(a[1..], rest, slashes, room - 1);
    }
  }

  lemma TrimPlain(s: string)
    requires s != "" && s[|s|-1] != '/'
    ensures TrimSlashes(s) == s
  {}

  /** The key of a name of one level is the name, as far as 127 characters go. */
  lemma KeyOfOneLevel(a: string)
    requires IsPlain(a)
    ensures KeyOf(a) == if |a| <= 127 then a else a[..127]
  {
    var kept := if |a| <= 127 then a else a[..127];
    var rest := a[|kept|..];
    assert a == kept + rest;
    CutPlain(kept, rest, 0, KEY_ROOM);
    if kept != "" {
      TrimPlain(kept);
    }
  }

  lemma CutFirstLevel(a: string, tail: string)
    requires IsPlain(a) && |a| < KEY_ROOM
    ensures Cut(a + ("/" + tail), 0, KEY_ROOM) == |a| + 1 + Cut(tail, 1, KEY_ROOM - |a| - 1)
  {
    CutPlain(a, "/" + tail, 0, KEY_ROOM);
    CutSlash(tail, KEY_ROOM - |a|);
  }

  lemma CutSlash(tail: string, room: nat)
    requires room > 0
    ensures Cut("/" + tail, 0, room) == 1 + Cut(tail, 1, room - 1)
  {
    assert ("/" + tail)[1..] == tail;
  }

  lemma CutSecondLevel(b: string, rest: string, room: nat)
    requires IsPlain(b) && |b| < room
    ensures Cut(b + ("/" + rest), 1, room) == |b| + 1 && Cut(b, 1, room) == |b|
  {
    CutPlain(b, "/" + rest, 1, room);
    CutPlain(b, "", 1, room);
    assert b + "" == b;
  }

  /** The key of a longer name is its first two levels, whatever follows them. */
  lemma KeyOfTwoLevels(a: string, b: string, rest: string)
    requires IsPlain(a) && IsPlain(b) && b != "" && |a| + |b| + 1 <= 126
    ensures KeyOf(a + "/" + b + "/" + rest) == a + "/" + b == KeyOf(a + "/" + b)
  {
    var t := a + "/" + b;
    CutFirstLevel(a, b);
    CutFirstLevel(a, b + ("/" + rest));
    CutSecondLevel(b, rest, KEY_ROOM - |a| - 1);
    assert t == a + ("/" + b) && t[..|t|] == t;
    assert a + "/" + b + "/" + rest == a + ("/" + (b + ("/" + rest)));
    assert (t + "/" + rest)[..|t|+1] == t + "/";
    TrimTail(t);
    TrimPlain(t);
  }

  lemma CutAfterSlash(s: string)
    requires s != "" && s[0] == '/'
    ensures |s| == 1 || IsWild(s[1]) ==> Cut(s, 0, KEY_ROOM) == 1
    ensures |s| > 1 && s[1] == '/' ==> Cut(s, 0, KEY_ROOM) == 2
    ensures |s| > 1 && !IsWild(s[1]) ==> Cut(s, 0, KEY_ROOM) >= 2
  {
    if |s| > 1 {
      assert s[1..][0] == s[1];
    }
  }

  lemma {:induction false} TrimAllSlashes(s: string)
    requires forall i :: 0 <= i < |s| ==> s[i] == '/'
    ensures TrimSlashes(s) == ""
  {
    if s != "" {
      TrimAllSlashes(s[..|s|-1]);
    }
  }

  function SlashesBeforeWildcard(f: string): nat {
    if f == "" || IsWild(f[0]) then 0
    else (if f[0] == '/' then 1 else 0) + SlashesBeforeWildcard(f[1..])
  }

  /** The key is settled before any wildcard. */
  predicate Pinned(f: string) {
    IsExact(f) || SlashesBeforeWildcard(f) >= KEY_LEVELS
  }

  lemma {:induction false} TrimTail(s: string)
    ensures TrimSlashes(s + "/") == TrimSlashes(s)
  {
    assert (s + "/")[..|s + "/"|-1] == s;
  }

  /** The text before the cut, one character at a time. */
  lemma CutStep(s: string, slashes: nat, room: nat)
    requires s != "" && room > 0 && !IsWild(s[0]) && (s[0] == '/' ==> slashes + 1 < KEY_LEVELS)
    ensures var after := if s[0] == '/' then slashes + 1 else slashes;
            s[..Cut(s, slashes, room)] == [s[0]] + s[1..][..Cut(s[1..], after, room - 1)]
  {}

  /** Up to a closing slash, a pinned filter and a topic it matches are cut to the same text. */
  lemma {:induction false} PinnedCut(f: string, t: string, slashes: nat, room: nat)
    requires Walk(f, t, true) && slashes < KEY_LEVELS
    requires IsExact(f) || slashes + SlashesBeforeWildcard(f) >= KEY_LEVELS
    ensures var kept, seen := f[..Cut(f, slashes, room)], t[..Cut(t, slashes, room)];
            kept == seen || kept == seen + "/"
  {
    if f != "" && t != "" && room > 0 {
      assert f[0] == t[0];
      if f[0] != '/' || slashes + 1 < KEY_LEVELS {
        var after := if f[0] == '/' then slashes + 1 else slashes;
        PinnedCut(f[1..], t[1..], after, room - 1);
        CutStep(f, slashes, room);
        CutStep(t, slashes, room);
        var seen := t[1..][..Cut(t[1..], after, room - 1)];
        assert [t[0]] + (seen + "/") == [t[0]] + seen + "/";
      }
    } else if f == "/#" {
      assert f[0] == '/' && f[1..] == "#";
      assert SlashesBeforeWildcard(f) == 1 && !IsExact(f);
    }
  }

  /** A topic the filter matches: each wildcard replaced by one letter. */
  function Filled(f: string): (t: string)
    ensures |t| == |f|
  {
    if f == "" then "" else [if IsWild(f[0]) then 'x' else f[0]] + Filled(f[1..])
  }

  lemma {:induction false} FilledMatches(f: string, atStart: bool)
    requires ValidFrom(f, atStart)
    ensures Walk(f, Filled(f), true)
  {
    if f != "" {
      var t := Filled(f);
      assert t[1..] == Filled(f[1..]);
      if f[0] == '+' {
        FilledMatches(f[1..], false);
        assert SkipLevel(t) == SkipLevel(t[1..]) == t[1..];
      } else if f[0] != '#' {
        FilledMatches(f[1..], f[0] == '/');
      }
    }
  }

  /** A filter that is not pinned is cut at its first wildcard, and that topic later. */
  lemma {:induction false} FilledCut(f: string, slashes: nat, room: nat)
    requires !IsExact(f) && slashes + SlashesBeforeWildcard(f) < KEY_LEVELS && |f| <= room
    ensures var w := Cut(f, slashes, room);
            w < |f| && Filled(f)[w] != '/' && Cut(Filled(f), slashes, room) > w
  {
    var t := Filled(f);
    assert t[1..] == Filled(f[1..]);
    if !IsWild(f[0]) {
      var after := if f[0] == '/' then slashes + 1 else slashes;
      FilledCut(f[1..], after, room - 1);
      CutHead(f, slashes, room);
      CutHead(t, slashes, room);
    }
  }

  lemma CutHead(s: string, slashes: nat, room: nat)
    requires s != "" && room > 0 && !IsWild(s[0]) && (s[0] == '/' ==> slashes + 1 < KEY_LEVELS)
    ensures Cut(s, slashes, room) == 1 + Cut(s[1..], if s[0] == '/' then slashes + 1 else slashes, room - 1)
  {}

  lemma {:induction false} TrimLength(s: string, i: nat)
    ensures |TrimSlashes(s)| <= |s|
    ensures i < |s| && s[i] != '/' ==> |TrimSlashes(s)| > i
  {
    if s != "" && s[|s|-1] == '/' {
      TrimLength(s[..|s|-1], i);
    }
  }

  /** A valid filter shares its key with every topic it matches exactly when it has
      no wildcard, or two slashes before its first one. */
  lemma SharesKeyIffPinned(f: string)
    requires FilterValid(f) && |f| <= KEY_ROOM
    ensures (forall t :: TopicMatch(f, t) ==> KeyOf(t) == KeyOf(f)) <==> Pinned(f)
  {
    if Pinned(f) {
      forall t | TopicMatch(f, t) ensures KeyOf(t) == KeyOf(f) {
        PinnedSharesKey(f, t);
      }
    } else {
      UnpinnedSplits(f);
    }
  }

  /** This half needs no bound on the filter's length. */
  lemma PinnedSharesKey(f: string, t: string)
    requires Pinned(f) && TopicMatch(f, t)
    ensures KeyOf(t) == KeyOf(f)
  {
    PinnedCut(f, t, 0, KEY_ROOM);
    TrimTail(t[..Cut(t, 0, KEY_ROOM)]);
  }

  lemma UnpinnedSplits(f: string)
    requires FilterValid(f) && |f| <= KEY_ROOM && !Pinned(f)
    ensures TopicMatch(f, Filled(f)) && KeyOf(Filled(f)) != KeyOf(f)
  {
    var t := Filled(f);
    assert f[0..] == f;
    ValidSuffix(f, 0);
    FilledMatches(f, true);
    FilledCut(f, 0, KEY_ROOM);
    var w := Cut(f, 0, KEY_ROOM);
    TrimLength(f[..w], 0);
    TrimLength(t[..Cut(t, 0, KEY_ROOM)], w);
  }
}
