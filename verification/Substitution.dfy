// Placeholder substitution: internal/worker/actions.go (replaceVariablesInString, replaceInString)
// and internal/worker/transform_executor.go (executeTemplateOperation).
//
// The program replaces "{{key}}" by the key's value one key at a time, in the unspecified order in
// which a Go map is ranged over.  Values are taken already formatted as strings.
module Substitution {
  import opened Wrappers
  import opened Pigeonhole

  function Placeholder(key: string): string {
    "{{" + key + "}}"
  }

  // strings.ReplaceAll for a non-empty pattern: leftmost occurrences, not overlapping.
  function ReplaceAll(s: string, pattern: string, value: string): string
    requires pattern != []
    decreases |s|
  {
    if s == [] then []
    else if pattern <= s then value + ReplaceAll(s[|pattern|..], pattern, value)
    else [s[0]] + ReplaceAll(s[1..], pattern, value)
  }

  // Replacing key after key, in the order of a sequence.
  function ReplaceInOrder(s: string, order: seq<string>, vars: map<string, string>): string
    requires Members(order) <= vars.Keys
    decreases |order|
  {
    if order == [] then s
    else ReplaceInOrder(ReplaceAll(s, Placeholder(order[0]), vars[order[0]]), order[1..], vars)
  }

  // ----- Templates -----

  datatype Token = Letter(c: char) | Variable(key: string)

  function Text(s: string): (ts: seq<Token>)
    ensures |ts| == |s|
  {
    if s == [] then [] else [Letter(s[0])] + Text(s[1..])
  }

  function Render(ts: seq<Token>): string {
    if ts == [] then []
    else (match ts[0] case Letter(c) => [c] case Variable(key) => Placeholder(key)) + Render(ts[1..])
  }

  predicate BraceFree(s: string) {
    '{' !in s && '}' !in s
  }

  // The template reads the same with its placeholders taken out, and there two opening braces are
  // never neighbours.  (afterBrace: the letter before was an opening brace.)  Single braces, as in
  // a JSON document, are fine.
  predicate WellFormed(ts: seq<Token>, afterBrace: bool) {
    ts == [] ||
    match ts[0]
    case Letter(c) => !(afterBrace && c == '{') && WellFormed(ts[1..], c == '{')
    case Variable(key) => BraceFree(key) && WellFormed(ts[1..], afterBrace)
  }

  function Letters(ts: seq<Token>): string {
    if ts == [] then [] else (if ts[0].Letter? then [ts[0].c] else []) + Letters(ts[1..])
  }

  ghost predicate NoDoubleBrace(s: string) {
    forall i :: 0 < i < |s| ==> s[i] == '{' ==> s[i - 1] != '{'
  }

  lemma NoDoubleBraceCons(c: char, s: string)
    ensures NoDoubleBrace([c] + s) <==> NoDoubleBrace(s) && !(c == '{' && s != [] && s[0] == '{')
  {
    var t := [c] + s;
    if NoDoubleBrace(t) {
      assert s != [] && s[0] == '{' ==> t[1] == '{' && t[0] == c;
      forall i | 0 < i < |s| && s[i] == '{' ensures s[i - 1] != '{' {
        assert t[i + 1] == '{' && t[i] == s[i - 1];
      }
    }
    if NoDoubleBrace(s) && !(c == '{' && s != [] && s[0] == '{') {
      forall i | 0 < i < |t| && t[i] == '{' ensures t[i - 1] != '{' {
        if i > 1 { assert s[i - 1] == '{'; }
      }
    }
  }

  // WellFormed in terms of the text: keys are brace-free, and the template without its
  // placeholders does not contain "{{".
  lemma {:induction false} WellFormedMeans(ts: seq<Token>, afterBrace: bool)
    ensures WellFormed(ts, afterBrace) <==>
            && (forall t :: t in ts && t.Variable? ==> BraceFree(t.key))
            && NoDoubleBrace((if afterBrace then "{" else "") + Letters(ts))
  {
    if ts != [] {
      var rest := Letters(ts[1..]);
      assert forall t :: t in ts <==> t == ts[0] || t in ts[1..];
      assert "" + Letters(ts) == Letters(ts);
      match ts[0]
      case Variable(_) =>
        WellFormedMeans(ts[1..], afterBrace);
        assert [] + rest == rest;
      case Letter(c) =>
        WellFormedMeans(ts[1..], c == '{');
        assert "" + rest == rest;
        assert Letters(ts) == [c] + rest;
        NoDoubleBraceCons(c, rest);
        NoDoubleBraceCons('{', [c] + rest);
    }
  }

  // The text in which the placeholders of some keys are filled in.
  function RenderWith(ts: seq<Token>, done: set<string>, vars: map<string, string>): string
    requires done <= vars.Keys
  {
    if ts == [] then []
    else
      (match ts[0]
       case Letter(c) => [c]
       case Variable(key) => if key in done then vars[key] else Placeholder(key))
      + RenderWith(ts[1..], done, vars)
  }

  // The one-pass meaning of a template: unknown placeholders are left as they are.
  function Simultaneous(ts: seq<Token>, vars: map<string, string>): string {
    if ts == [] then []
    else (match ts[0]
          case Letter(c) => [c]
          case Variable(key) => if key in vars then vars[key] else Placeholder(key))
         + Simultaneous(ts[1..], vars)
  }

  // ----- Values that cannot take part in a placeholder -----

  predicate Comparable(x: string, y: string) {
    x <= y || y <= x
  }

  // The value can be laid over a placeholder so that the two agree where they meet, and so that it
  // covers one of the two opening braces.
  predicate Overlaps(value: string, key: string) {
    || (exists k :: 0 <= k < |value| && Comparable(value[k..], Placeholder(key)))
    || (value != "" && Comparable(value, Placeholder(key)[1..]))
  }

  // No value overlaps the placeholder of another key, unless that key's value is its placeholder.
  predicate Apart(vars: map<string, string>) {
    forall a, c :: a in vars && c in vars && a != c && vars[c] != Placeholder(c) ==> !Overlaps(vars[a], c)
  }

  // Values without an opening brace are the simplest case.
  lemma PlainIsApart(vars: map<string, string>)
    requires forall k :: k in vars ==> '{' !in vars[k]
    ensures Apart(vars)
  {
    forall a, c | a in vars && c in vars ensures !Overlaps(vars[a], c) {
      var v, p := vars[a], Placeholder(c);
      forall k | 0 <= k < |v| ensures !Comparable(v[k..], p) {
        assert v[k..][0] == v[k] && v[k] in v && p[0] == '{';
      }
      assert v != "" ==> v[0] in v && p[1..][0] == '{';
    }
  }

  // ----- Occurrences of a placeholder -----

  lemma ConcatComparable(p: string, v: string, s: string)
    ensures p <= v + s ==> Comparable(v, p)
  {
    var whole := v + s;
    assert whole[..|v|] == v;
    if |p| <= |v| {
      assert v[..|p|] == whole[..|p|];
    } else if |p| <= |whole| {
      assert whole[..|p|][..|v|] == v;
    }
  }

  lemma ConsPrefix(p: string, c: char, s: string)
    requires p != []
    ensures p <= [c] + s ==> p[1..] <= s
  {
    var whole := [c] + s;
    if |p| <= |whole| { assert whole[..|p|][1..] == s[..|p| - 1]; }
  }

  // Text that the pattern neither occurs in nor begins in is left alone.
  lemma {:induction false} SkipText(v: string, s: string, pattern: string, value: string)
    requires pattern != [] && forall k :: 0 <= k < |v| ==> !Comparable(v[k..], pattern)
    ensures ReplaceAll(v + s, pattern, value) == v + ReplaceAll(s, pattern, value)
  {
    if v == [] {
      assert v + s == s;
    } else {
      var whole := v + s;
      assert v[0..] == v && !Comparable(v[0..], pattern);
      ConcatComparable(pattern, v, s);
      assert whole[0] == v[0] && whole[1..] == v[1..] + s;
      forall k | 0 <= k < |v[1..]| ensures !Comparable(v[1..][k..], pattern) {
        assert v[1..][k..] == v[k + 1..];
      }
      SkipText(v[1..], s, pattern, value);
    }
  }

  lemma SkipLetters(p: string, s: string, key: string, value: string)
    requires '{' !in p
    ensures ReplaceAll(p + s, Placeholder(key), value) == p + ReplaceAll(s, Placeholder(key), value)
  {
    forall k | 0 <= k < |p| ensures !Comparable(p[k..], Placeholder(key)) {
      assert p[k..][0] == p[k] && p[k] in p && Placeholder(key)[0] == '{';
    }
    SkipText(p, s, Placeholder(key), value);
  }

  // A placeholder begins another placeholder's text only if they are the same.
  lemma PlaceholdersDiffer(a: string, b: string, s: string)
    requires BraceFree(a) && BraceFree(b) && a != b
    ensures !(Placeholder(a) <= Placeholder(b) + s)
  {
    var p, t := Placeholder(a), Placeholder(b) + s;
    if |a| < |b| {
      assert b[|a|] in b && t[|a| + 2] == b[|a|];
      assert p[|a| + 2] != t[|a| + 2];
    } else if |b| < |a| {
      assert a[|b|] in a && p[|b| + 2] == a[|b|];
      assert p[|b| + 2] != t[|b| + 2];
    } else {
      var i :| 0 <= i < |a| && a[i] != b[i];
      assert p[i + 2] != t[i + 2];
    }
  }

  lemma SkipPlaceholder(other: string, s: string, key: string, value: string)
    requires BraceFree(other) && BraceFree(key) && other != key
    ensures ReplaceAll(Placeholder(other) + s, Placeholder(key), value) ==
            Placeholder(other) + ReplaceAll(s, Placeholder(key), value)
  {
    var whole := Placeholder(other) + s;
    var rest := other + "}}";
    PlaceholdersDiffer(key, other, s);
    assert whole[1..] == "{" + (rest + s);
    assert whole[1..][1] == (rest + s)[0] && (rest + s)[0] == rest[0];
    assert rest[0] in rest && rest[0] != '{';
    assert !(Placeholder(key) <= whole[1..]) by {
      assert Placeholder(key)[1] == '{';
    }
    assert whole[1..][1..] == rest + s;
    assert '{' !in rest;
    SkipLetters(rest, s, key, value);
    assert ReplaceAll(whole, Placeholder(key), value) == "{" + ("{" + ReplaceAll(rest + s, Placeholder(key), value));
    assert "{" + ("{" + (rest + ReplaceAll(s, Placeholder(key), value))) ==
           Placeholder(other) + ReplaceAll(s, Placeholder(key), value);
  }

  // A brace is not the beginning of a placeholder.
  lemma {:induction false} NoTail(ts: seq<Token>, done: set<string>, key: string, vars: map<string, string>)
    requires WellFormed(ts, true) && BraceFree(key) && done <= vars.Keys
    requires forall a :: a in done ==> !Overlaps(vars[a], key)
    ensures !(Placeholder(key)[1..] <= RenderWith(ts, done, vars))
  {
    var tail, text := Placeholder(key)[1..], RenderWith(ts, done, vars);
    if ts != [] {
      match ts[0]
      case Letter(c) => assert text[0] == c && tail[0] == '{';
      case Variable(k) =>
        if k !in done {
          assert text[1] == '{';
          assert key != [] ==> key[0] in key;
          assert tail[1] != '{';
        } else if vars[k] == "" {
          assert text == RenderWith(ts[1..], done, vars);
          NoTail(ts[1..], done, key, vars);
        } else {
          ConcatComparable(tail, vars[k], RenderWith(ts[1..], done, vars));
        }
    }
  }

  lemma SkipBrace(ts: seq<Token>, done: set<string>, key: string, value: string, vars: map<string, string>)
    requires WellFormed(ts, true) && BraceFree(key) && done <= vars.Keys
    requires forall a :: a in done ==> !Overlaps(vars[a], key)
    ensures var rest := RenderWith(ts, done, vars);
            ReplaceAll("{" + rest, Placeholder(key), value) == "{" + ReplaceAll(rest, Placeholder(key), value)
  {
    var rest := RenderWith(ts, done, vars);
    var whole := "{" + rest;
    NoTail(ts, done, key, vars);
    assert whole[1..] == rest;
    ConsPrefix(Placeholder(key), '{', rest);
  }

  // Sequential replacement of one key fills in exactly that key's tokens, when the values already
  // filled in do not overlap its placeholder.
  lemma {:induction false} ReplaceOne(
    ts: seq<Token>, afterBrace: bool, done: set<string>, key: string, vars: map<string, string>)
    requires WellFormed(ts, afterBrace) && BraceFree(key) && key in vars && key !in done && done <= vars.Keys
    requires forall a :: a in done ==> !Overlaps(vars[a], key)
    ensures ReplaceAll(RenderWith(ts, done, vars), Placeholder(key), vars[key]) == RenderWith(ts, done + {key}, vars)
  {
    if ts != [] {
      var rest := RenderWith(ts[1..], done, vars);
      match ts[0]
      case Letter(c) =>
        ReplaceOne(ts[1..], c == '{', done, key, vars);
        if c == '{' {
          SkipBrace(ts[1..], done, key, vars[key], vars);
        } else {
          SkipLetters([c], rest, key, vars[key]);
        }
      case Variable(other) =>
        ReplaceOne(ts[1..], afterBrace, done, key, vars);
        if other == key {
          var whole := Placeholder(key) + rest;
          assert Placeholder(key) <= whole && whole[|Placeholder(key)|..] == rest;
        } else if other in done {
          SkipText(vars[other], rest, Placeholder(key), vars[key]);
        } else {
          SkipPlaceholder(other, rest, key, vars[key]);
        }
    }
  }

  // A key whose value is its own placeholder changes nothing.
  lemma {:induction false} ReplaceByItself(s: string, pattern: string)
    requires pattern != []
    ensures ReplaceAll(s, pattern, pattern) == s
    decreases |s|
  {
    if s != [] {
      if pattern <= s {
        ReplaceByItself(s[|pattern|..], pattern);
        assert s == pattern + s[|pattern|..];
      } else {
        ReplaceByItself(s[1..], pattern);
        assert s == [s[0]] + s[1..];
      }
    }
  }

  lemma {:induction false} FillByItself(ts: seq<Token>, done: set<string>, key: string, vars: map<string, string>)
    requires done <= vars.Keys && key in vars && vars[key] == Placeholder(key)
    ensures RenderWith(ts, done + {key}, vars) == RenderWith(ts, done, vars)
  {
    if ts != [] { FillByItself(ts[1..], done, key, vars); }
  }

  lemma {:induction false} FillNone(ts: seq<Token>, vars: map<string, string>)
    ensures RenderWith(ts, {}, vars) == Render(ts)
  {
    if ts != [] { FillNone(ts[1..], vars); }
  }

  lemma {:induction false} FillAll(ts: seq<Token>, vars: map<string, string>)
    ensures RenderWith(ts, vars.Keys, vars) == Simultaneous(ts, vars)
  {
    if ts != [] { FillAll(ts[1..], vars); }
  }

  ghost predicate PlainKeys(vars: map<string, string>) {
    forall k :: k in vars ==> BraceFree(k)
  }

  function Members(order: seq<string>): set<string> {
    set k | k in order
  }

  // After any keys in any order, the text is the template with exactly those keys filled in.
  lemma {:induction false} ReplaceInOrderFills(
    ts: seq<Token>, done: set<string>, order: seq<string>, vars: map<string, string>)
    requires WellFormed(ts, false) && PlainKeys(vars) && Apart(vars)
    requires done <= vars.Keys && Members(order) <= vars.Keys && Distinct(order) && done !! Members(order)
    decreases |order|
    ensures ReplaceInOrder(RenderWith(ts, done, vars), order, vars) == RenderWith(ts, done + Members(order), vars)
  {
    if order == [] {
      assert done + Members(order) == done;
    } else {
      var key := order[0];
      assert key in Members(order) && Members(order) == {key} + Members(order[1..]);
      assert key !in order[1..];
      if vars[key] == Placeholder(key) {
        ReplaceByItself(RenderWith(ts, done, vars), Placeholder(key));
        FillByItself(ts, done, key, vars);
      } else {
        ReplaceOne(ts, false, done, key, vars);
      }
      ReplaceInOrderFills(ts, done + {key}, order[1..], vars);
      assert done + {key} + Members(order[1..]) == done + Members(order);
    }
  }

  // Every key once.
  ghost predicate CompleteOrder(order: seq<string>, vars: map<string, string>) {
    Distinct(order) && Members(order) == vars.Keys
  }

  // Any order that visits every key once gives the one-pass result.
  lemma OrderDoesNotMatter(ts: seq<Token>, order: seq<string>, vars: map<string, string>)
    requires WellFormed(ts, false) && PlainKeys(vars) && Apart(vars) && CompleteOrder(order, vars)
    ensures ReplaceInOrder(Render(ts), order, vars) == Simultaneous(ts, vars)
  {
    FillNone(ts, vars);
    ReplaceInOrderFills(ts, {}, order, vars);
    assert {} + Members(order) == vars.Keys;
    FillAll(ts, vars);
  }

  // ----- Where the order matters -----

  lemma {:induction false} ReplaceLength(s: string, pattern: string, value: string)
    requires pattern != []
    ensures |value| <= |pattern| ==> |ReplaceAll(s, pattern, value)| <= |s|
    ensures |value| >= |pattern| ==> |ReplaceAll(s, pattern, value)| >= |s|
    decreases |s|
  {
    if s != [] { ReplaceLength(if pattern <= s then s[|pattern|..] else s[1..], pattern, value); }
  }

  // Replacing something that occurs by something else changes the text.
  lemma {:induction false} ReplaceChanges(s: string, pattern: string, value: string, i: nat)
    requires pattern != [] && value != pattern && i <= |s| && pattern <= s[i..]
    ensures ReplaceAll(s, pattern, value) != s
    decreases |s|
  {
    if pattern <= s {
      var rest := s[|pattern|..];
      ReplaceLength(rest, pattern, value);
      var changed := value + ReplaceAll(rest, pattern, value);
      if |value| == |pattern| {
        assert changed[..|pattern|] == value && s[..|pattern|] == pattern;
      } else {
        assert |changed| != |s|;
      }
    } else {
      assert i > 0 by { assert s[0..] == s; }
      assert s[1..][i - 1..] == s[i..];
      ReplaceChanges(s[1..], pattern, value, i - 1);
      assert ([s[0]] + ReplaceAll(s[1..], pattern, value))[1..] == ReplaceAll(s[1..], pattern, value);
    }
  }

  ghost predicate Only(ts: seq<Token>, key: string) {
    forall t :: t in ts && t.Variable? ==> t.key == key
  }

  lemma {:induction false} FillOther(ts: seq<Token>, key: string, other: string, vars: map<string, string>)
    requires Only(ts, key) && other != key && other in vars
    ensures RenderWith(ts, {other}, vars) == Render(ts)
  {
    if ts != [] {
      assert ts[0] in ts && forall t :: t in ts[1..] ==> t in ts;
      FillOther(ts[1..], key, other, vars);
    }
  }

  lemma {:induction false} SkipOthers(
    ts: seq<Token>, key: string, others: seq<string>, rest: seq<string>, vars: map<string, string>)
    requires WellFormed(ts, false) && PlainKeys(vars) && Only(ts, key)
    requires key !in others && Members(others) <= vars.Keys && Members(rest) <= vars.Keys
    ensures Members(others + rest) <= vars.Keys
    ensures ReplaceInOrder(Render(ts), others + rest, vars) == ReplaceInOrder(Render(ts), rest, vars)
    decreases |others|
  {
    if others == [] {
      assert others + rest == rest;
    } else {
      var other := others[0];
      assert other in Members(others) && other in others;
      assert forall k :: k in others[1..] ==> k in others && k in Members(others);
      FillNone(ts, vars);
      assert {} + {other} == {other};
      ReplaceOne(ts, false, {}, other, vars);
      FillOther(ts, key, other, vars);
      SkipOthers(ts, key, others[1..], rest, vars);
      assert (others + rest)[0] == other && (others + rest)[1..] == others[1..] + rest;
    }
  }

  // A template of one placeholder between some letters.
  function Around(pre: string, key: string, post: string): seq<Token> {
    Text(pre) + [Variable(key)] + Text(post)
  }

  lemma {:induction false} LettersConcat(a: seq<Token>, b: seq<Token>)
    ensures Letters(a + b) == Letters(a) + Letters(b)
  {
    if a == [] {
      assert a + b == b;
    } else {
      var whole, head := a + b, if a[0].Letter? then [a[0].c] else [];
      assert whole[0] == a[0] && whole[1..] == a[1..] + b;
      LettersConcat(a[1..], b);
      assert Letters(whole) == head + (Letters(a[1..]) + Letters(b));
      assert Letters(a) == head + Letters(a[1..]);
    }
  }

  lemma {:induction false} LettersOfText(s: string)
    ensures Letters(Text(s)) == s
    ensures forall t :: t in Text(s) ==> t.Letter?
  {
    if s != [] { LettersOfText(s[1..]); }
  }

  lemma {:induction false} SimultaneousConcat(a: seq<Token>, b: seq<Token>, vars: map<string, string>)
    ensures Simultaneous(a + b, vars) == Simultaneous(a, vars) + Simultaneous(b, vars)
  {
    if a == [] {
      assert a + b == b;
    } else {
      assert (a + b)[1..] == a[1..] + b;
      SimultaneousConcat(a[1..], b, vars);
    }
  }

  lemma {:induction false} SimultaneousText(s: string, vars: map<string, string>)
    ensures Simultaneous(Text(s), vars) == s
  {
    if s != [] { SimultaneousText(s[1..], vars); }
  }

  lemma LettersAround(pre: string, key: string, post: string)
    ensures Letters(Around(pre, key, post)) == pre + post
  {
    var tail := [Variable(key)] + Text(post);
    assert Around(pre, key, post) == Text(pre) + tail && tail[1..] == Text(post);
    LettersConcat(Text(pre), tail);
    LettersOfText(pre);
    LettersOfText(post);
    assert Letters(tail) == [] + Letters(tail[1..]);
  }

  lemma AroundIsWellFormed(pre: string, key: string, post: string)
    requires BraceFree(key) && NoDoubleBrace(pre + post)
    ensures WellFormed(Around(pre, key, post), false) && Only(Around(pre, key, post), key)
  {
    var ts := Around(pre, key, post);
    LettersAround(pre, key, post);
    assert "" + Letters(ts) == pre + post;
    LettersOfText(pre);
    LettersOfText(post);
    forall t | t in ts && t.Variable? ensures t.key == key {
      assert t in Text(pre) || t == Variable(key) || t in Text(post);
    }
    WellFormedMeans(ts, false);
  }

  lemma AroundMeans(pre: string, key: string, post: string, vars: map<string, string>)
    requires key in vars
    ensures Simultaneous(Around(pre, key, post), vars) == pre + (vars[key] + post)
  {
    var tail := [Variable(key)] + Text(post);
    assert Around(pre, key, post) == Text(pre) + tail && tail[0] == Variable(key) && tail[1..] == Text(post);
    SimultaneousConcat(Text(pre), tail, vars);
    SimultaneousText(pre, vars);
    SimultaneousText(post, vars);
  }

  // With its key visited last, a template of one placeholder gives the one-pass meaning.
  lemma LastKeyFills(ts: seq<Token>, key: string, others: seq<string>, vars: map<string, string>)
    requires WellFormed(ts, false) && PlainKeys(vars) && Only(ts, key) && key in vars
    requires Distinct(others) && Members(others) == vars.Keys - {key}
    ensures CompleteOrder(others + [key], vars)
    ensures ReplaceInOrder(Render(ts), others + [key], vars) == Simultaneous(ts, vars)
  {
    var order := others + [key];
    assert forall k :: k in others <==> k in Members(others);
    assert forall k :: k in order <==> k in others || k == key;
    assert Members(order) == vars.Keys && Members([key]) <= vars.Keys && key !in others;
    SkipOthers(ts, key, others, [key], vars);
    FillNone(ts, vars);
    assert {} + {key} == {key};
    ReplaceOne(ts, false, {}, key, vars);
    FillOnly(ts, key, vars);
    OneReplacement(Render(ts), key, vars);
  }

  lemma OneReplacement(s: string, key: string, vars: map<string, string>)
    requires key in vars && Members([key]) <= vars.Keys
    ensures ReplaceInOrder(s, [key], vars) == ReplaceAll(s, Placeholder(key), vars[key])
  {
    var result := ReplaceAll(s, Placeholder(key), vars[key]);
    assert [key][1..] == [] && ReplaceInOrder(result, [], vars) == result;
  }

  // Whatever the keys and the values: a value that completes the placeholder of a key visited after
  // it is itself replaced, and left alone when its own key is visited last.
  lemma CompletedPlaceholderIsReplaced(
    pre: string, a: string, post: string, c: string, i: nat, vars: map<string, string>)
    requires PlainKeys(vars) && a in vars && c in vars && a != c && vars[c] != Placeholder(c)
    requires NoDoubleBrace(pre + post)
    requires var text := pre + (vars[a] + post); i <= |text| && Placeholder(c) <= text[i..]
    ensures !OrderIrrelevant(vars)
  {
    var ts, text := Around(pre, a, post), pre + (vars[a] + post);
    AroundMeans(pre, a, post, vars);
    AroundIsWellFormed(pre, a, post);
    var others := Enumerate(vars.Keys - {a, c});
    assert Members(others) == vars.Keys - {a, c};
    var order := others + [a, c];
    LastTwo(others, a, c, vars);
    SkipOthers(ts, a, others, [a, c], vars);
    FillNone(ts, vars);
    assert {} + {a} == {a};
    ReplaceOne(ts, false, {}, a, vars);
    FillOnly(ts, a, vars);
    assert [a, c][1..] == [c];
    OneReplacement(text, c, vars);
    ReplaceChanges(text, Placeholder(c), vars[c], i);
    assert ReplaceInOrder(Render(ts), order, vars) != text;
    var allOthers := Enumerate(vars.Keys - {a});
    assert Members(allOthers) == vars.Keys - {a};
    LastKeyFills(ts, a, allOthers, vars);
    assert WellFormed(ts, false) && CompleteOrder(order, vars) && CompleteOrder(allOthers + [a], vars);
  }

  lemma {:induction false} FillOnly(ts: seq<Token>, key: string, vars: map<string, string>)
    requires Only(ts, key) && key in vars
    ensures RenderWith(ts, {key}, vars) == Simultaneous(ts, vars)
  {
    if ts != [] {
      assert ts[0] in ts && forall t :: t in ts[1..] ==> t in ts;
      FillOnly(ts[1..], key, vars);
    }
  }

  lemma LastTwo(others: seq<string>, a: string, c: string, vars: map<string, string>)
    requires Distinct(others) && Members(others) == vars.Keys - {a, c} && a in vars && c in vars && a != c
    ensures CompleteOrder(others + [a, c], vars) && a !in others && Members([a, c]) <= vars.Keys
  {
    var order := others + [a, c];
    assert forall k :: k in others <==> k in Members(others);
    assert forall k :: k in order <==> k in others || k == a || k == c;
    assert Members(order) == vars.Keys;
    forall i, j | 0 <= i < j < |order| ensures order[i] != order[j] {
      if j >= |others| && i < |others| { assert order[i] in others; }
    }
  }

  // Every template reads the same in any two orders.
  ghost predicate OrderIrrelevant(vars: map<string, string>) {
    forall ts, order, other ::
      WellFormed(ts, false) && CompleteOrder(order, vars) && CompleteOrder(other, vars) ==>
        ReplaceInOrder(Render(ts), order, vars) == ReplaceInOrder(Render(ts), other, vars)
  }

  // What is left of a placeholder after its first braces has no two of them.
  lemma RestOfPlaceholder(key: string, n: nat)
    requires BraceFree(key) && 1 <= n <= |Placeholder(key)|
    ensures NoDoubleBrace(Placeholder(key)[n..]) && (n >= 2 ==> '{' !in Placeholder(key)[n..])
  {
    var p := Placeholder(key);
    forall i | 2 <= i < |p| ensures p[i] != '{' {
      if i < |key| + 2 { assert p[i] == key[i - 2] && key[i - 2] in key; }
    }
    forall i | 0 <= i < |p[n..]| ensures p[n..][i] == p[n + i] {
    }
  }

  // What completes a pattern from a place on.
  function Completion(tail: string, pattern: string): string {
    if pattern <= tail || !(tail <= pattern) then "" else pattern[|tail|..]
  }

  lemma CompletionCompletes(tail: string, pattern: string)
    requires Comparable(tail, pattern)
    ensures pattern <= tail + Completion(tail, pattern)
  {
    if tail <= pattern { assert tail + pattern[|tail|..] == pattern; }
  }

  lemma OccursInside(v: string, k: nat, pattern: string, post: string)
    requires k <= |v| && pattern <= v[k..] + post
    ensures k <= |"" + (v + post)| && pattern <= ("" + (v + post))[k..]
  {
    assert "" + (v + post) == v + post && (v + post)[k..] == v[k..] + post;
  }

  lemma InnerOverlapMatters(vars: map<string, string>, a: string, c: string, k: nat)
    requires PlainKeys(vars) && a in vars && c in vars && a != c && vars[c] != Placeholder(c)
    requires k < |vars[a]| && Comparable(vars[a][k..], Placeholder(c))
    ensures !OrderIrrelevant(vars)
  {
    var v, p := vars[a], Placeholder(c);
    var post := Completion(v[k..], p);
    CompletionCompletes(v[k..], p);
    if v[k..] <= p { RestOfPlaceholder(c, |v[k..]|); }
    OccursInside(v, k, p, post);
    assert "" + post == post;
    CompletedPlaceholderIsReplaced("", a, post, c, k, vars);
  }

  lemma EdgeOverlapMatters(vars: map<string, string>, a: string, c: string)
    requires PlainKeys(vars) && a in vars && c in vars && a != c && vars[c] != Placeholder(c)
    requires vars[a] != "" && Comparable(vars[a], Placeholder(c)[1..])
    ensures !OrderIrrelevant(vars)
  {
    var v, tail := vars[a], Placeholder(c)[1..];
    var post := Completion(v, tail);
    CompletionCompletes(v, tail);
    assert Placeholder(c) == "{" + tail;
    if v <= tail {
      RestOfPlaceholder(c, 1 + |v|);
      assert tail[|v|..] == Placeholder(c)[1 + |v|..];
    }
    var text := "{" + (v + post);
    assert forall i :: 0 < i < |"{" + post| ==> ("{" + post)[i] == post[i - 1];
    assert Placeholder(c) <= text && text[0..] == text;
    CompletedPlaceholderIsReplaced("{", a, post, c, 0, vars);
  }

  lemma OverlapMatters(vars: map<string, string>, a: string, c: string)
    requires PlainKeys(vars) && a in vars && c in vars && a != c && vars[c] != Placeholder(c)
    requires Overlaps(vars[a], c)
    ensures !OrderIrrelevant(vars)
  {
    if k :| 0 <= k < |vars[a]| && Comparable(vars[a][k..], Placeholder(c)) {
      InnerOverlapMatters(vars, a, c, k);
    } else {
      EdgeOverlapMatters(vars, a, c);
    }
  }

  // Substitution does not depend on the order in which the map is ranged over, for any template,
  // exactly when the values are apart from each other's placeholders.
  lemma OrderIrrelevantExactly(vars: map<string, string>)
    requires PlainKeys(vars)
    ensures OrderIrrelevant(vars) <==> Apart(vars)
  {
    if Apart(vars) {
      forall ts, order, other | WellFormed(ts, false) && CompleteOrder(order, vars) && CompleteOrder(other, vars)
        ensures ReplaceInOrder(Render(ts), order, vars) == ReplaceInOrder(Render(ts), other, vars)
      {
        OrderDoesNotMatter(ts, order, vars);
        OrderDoesNotMatter(ts, other, vars);
      }
    } else {
      var a, c :| a in vars && c in vars && a != c && vars[c] != Placeholder(c) && Overlaps(vars[a], c);
      OverlapMatters(vars, a, c);
    }
  }

  // ----- Reading a text as a template -----

  function KeyLength(s: string): (n: nat)
    ensures n <= |s| && BraceFree(s[..n])
  {
    if s == [] || s[0] == '{' || s[0] == '}' then 0 else 1 + KeyLength(s[1..])
  }

  // The placeholder a text begins with, if it does.
  function LeadingKey(s: string): (r: Option<string>)
    ensures r.Some? ==> BraceFree(r.value) && Placeholder(r.value) <= s
  {
    if |s| >= 2 && s[..2] == "{{" then
      var n := KeyLength(s[2..]);
      if "}}" <= s[2 + n..] then
        var key := s[2..][..n];
        assert Placeholder(key) == s[..4 + n] by {
          assert s[2 + n..][..2] == s[2 + n..4 + n];
        }
        Some(key)
      else None
    else None
  }

  function Tokenize(s: string): (ts: seq<Token>)
    decreases |s|
    ensures Render(ts) == s
  {
    if s == [] then []
    else
      var key := LeadingKey(s);
      if key.Some? then [Variable(key.value)] + Tokenize(s[|Placeholder(key.value)|..])
      else [Letter(s[0])] + Tokenize(s[1..])
  }

  lemma {:induction false} KeyLengthOf(key: string, rest: string)
    requires BraceFree(key) && rest != "" && rest[0] == '}'
    ensures KeyLength(key + rest) == |key|
  {
    var s := key + rest;
    if key == "" {
      assert s == rest;
    } else {
      assert s[0] == key[0] && key[0] in key && s[1..] == key[1..] + rest;
      KeyLengthOf(key[1..], rest);
    }
  }

  // A placeholder at the beginning of a text is found.
  lemma LeadingKeyOf(key: string, rest: string)
    requires BraceFree(key)
    ensures LeadingKey(Placeholder(key) + rest) == Some(key)
  {
    var s := Placeholder(key) + rest;
    assert s[..2] == "{{" && s[2..] == key + ("}}" + rest);
    KeyLengthOf(key, "}}" + rest);
    assert s[2 + |key|..] == "}}" + rest && s[2..][..|key|] == key;
  }

  // A letter of a template is not mistaken for one.
  lemma NoLeadingKey(c: char, ts: seq<Token>)
    requires WellFormed(ts, c == '{')
    ensures LeadingKey([c] + Render(ts)) == None
  {
    var s := [c] + Render(ts);
    if |s| >= 2 && s[..2] == "{{" {
      assert s[..2][0] == s[0] == c && s[..2][1] == s[1] && ts != [];
      match ts[0]
      case Letter(_) => assert false;
      case Variable(key) =>
        assert s[2] == '{' && s[2..][0] == '{';
        assert KeyLength(s[2..]) == 0 && s[2 + 0..] == s[2..];
    }
  }

  // Reading a template back: every well-formed template is the reading of its text.
  lemma {:induction false} TokenizeReads(ts: seq<Token>, afterBrace: bool)
    requires WellFormed(ts, afterBrace)
    ensures Tokenize(Render(ts)) == ts
  {
    if ts != [] {
      var s, rest := Render(ts), Render(ts[1..]);
      match ts[0]
      case Letter(c) =>
        TokenizeReads(ts[1..], c == '{');
        NoLeadingKey(c, ts[1..]);
        assert s == [c] + rest && s[1..] == rest;
      case Variable(key) =>
        TokenizeReads(ts[1..], afterBrace);
        LeadingKeyOf(key, rest);
        assert s == Placeholder(key) + rest && s[|Placeholder(key)|..] == rest;
    }
  }

  // ----- Values that look like placeholders -----

  lemma ReplaceWhole(key: string, value: string)
    ensures ReplaceAll(Placeholder(key), Placeholder(key), value) == value
  {
    assert Placeholder(key)[|Placeholder(key)|..] == [];
  }

  // The plainest case: a value that is another key's placeholder is itself replaced or not,
  // depending on which key comes first.
  lemma PlaceholderValuesDependOnOrder(a: string, b: string, vars: map<string, string>)
    requires BraceFree(a) && BraceFree(b) && a != b && vars.Keys == {a, b}
    requires vars[a] == Placeholder(b) && vars[b] != Placeholder(b)
    ensures Members([a, b]) == vars.Keys == Members([b, a])
    ensures ReplaceInOrder(Placeholder(a), [a, b], vars) == vars[b]
    ensures ReplaceInOrder(Placeholder(a), [b, a], vars) == Placeholder(b)
  {
    ReplaceWhole(a, vars[a]);
    ReplaceWhole(b, vars[b]);
    SkipPlaceholder(a, [], b, vars[b]);
    assert Placeholder(a) + [] == Placeholder(a);
    assert Members([a, b]) == {a, b} && Members([b, a]) == {a, b};
    assert [a, b][1..] == [b] && [b, a][1..] == [a] && [b][1..] == [] && [a][1..] == [];
    assert Members([a]) == {a} && Members([b]) == {b};
    assert ReplaceInOrder(Placeholder(b), [b], vars) == ReplaceInOrder(vars[b], [], vars);
    assert ReplaceInOrder(Placeholder(a), [a], vars) == ReplaceInOrder(vars[a], [], vars);
  }

  // ----- The program's loop -----

  // The map is ranged over in an arbitrary order.
  method ReplaceVariablesInString(text: string, vars: map<string, string>) returns (result: string)
    ensures exists order :: CompleteOrder(order, vars) && result == ReplaceInOrder(text, order, vars)
    ensures PlainKeys(vars) && Apart(vars) && WellFormed(Tokenize(text), false) ==>
              result == Simultaneous(Tokenize(text), vars)
  {
    var order := AnyOrder(vars.Keys);
    assert Members(order) == vars.Keys;
    result := text;
    for i := 0 to |order|
      invariant Members(order[..i]) <= vars.Keys
      invariant result == ReplaceInOrder(text, order[..i], vars)
    {
      var key := order[i];
      assert key in order;
      assert order[..i + 1] == order[..i] + [key];
      ReplaceOneMore(text, order[..i], key, vars);
      result := ReplaceAll(result, Placeholder(key), vars[key]);
    }
    assert order[..|order|] == order && CompleteOrder(order, vars);
    if PlainKeys(vars) && Apart(vars) && WellFormed(Tokenize(text), false) {
      OrderDoesNotMatter(Tokenize(text), order, vars);
    }
  }

  lemma {:induction false} ReplaceOneMore(s: string, order: seq<string>, key: string, vars: map<string, string>)
    requires key in vars && Members(order) <= vars.Keys
    ensures Members(order + [key]) == Members(order) + {key}
    decreases |order|
    ensures ReplaceInOrder(s, order + [key], vars) ==
            ReplaceAll(ReplaceInOrder(s, order, vars), Placeholder(key), vars[key])
  {
    assert forall k :: k in order + [key] <==> k in order || k == key;
    assert Members(order + [key]) == Members(order) + {key};
    if order == [] {
      assert order + [key] == [key];
    } else {
      assert (order + [key])[1..] == order[1..] + [key];
      ReplaceOneMore(ReplaceAll(s, Placeholder(order[0]), vars[order[0]]), order[1..], key, vars);
    }
  }
}
