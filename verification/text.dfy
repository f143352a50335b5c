/**
  String helpers with Python's semantics: `str.strip()`, `str.split()` (runs of
  whitespace), `str.split(sep)` (a single separator character), `sep.join(...)`,
  `str.startswith`, `sub in s` and `str.lower()`. Whitespace and case are the
  ASCII ones.
*/
module Text {
  import opened Seqs

  /** ASCII whitespace as `str.isspace` sees it: tab to carriage return, 0x1C-0x1F and space. */
  predicate IsSpace(c: char) {
    (9 <= c as int <= 13) || (28 <= c as int <= 32)
  }

  predicate NoSpace(s: string) {
    forall k :: 0 <= k < |s| ==> !IsSpace(s[k])
  }

  predicate StartsWith(s: string, prefix: string) {
    |prefix| <= |s| && s[..|prefix|] == prefix
  }

  lemma PrefixRest(s: string, prefix: string)
    requires StartsWith(s, prefix)
    ensures s == prefix + s[|prefix|..]
  {
  }

  /** `sub in s`: `sub` occurs somewhere in `s` as a contiguous block. */
  predicate Contains(s: string, sub: string)
    decreases |s|
  {
    StartsWith(s, sub) || (|s| > 0 && Contains(s[1..], sub))
  }

  lemma ContainsAt(s: string, sub: string, i: nat)
    requires i + |sub| <= |s| && s[i..i + |sub|] == sub
    ensures Contains(s, sub)
    decreases i
  {
    if i > 0 {
      assert s[1..][i - 1..i - 1 + |sub|] == s[i..i + |sub|];
      ContainsAt(s[1..], sub, i - 1);
    }
  }

  /** `s.lstrip()` */
  function LStrip(s: string): (r: string)
    ensures |r| <= |s| && r == s[|s| - |r|..]
    ensures r == [] || !IsSpace(r[0])
    ensures forall k :: 0 <= k < |s| - |r| ==> IsSpace(s[k])
  {
    if |s| > 0 && IsSpace(s[0]) then LStrip(s[1..]) else s
  }

  /** `s.rstrip()` */
  function RStrip(s: string): (r: string)
    ensures |r| <= |s| && r == s[..|r|]
    ensures r == [] || !IsSpace(r[|r| - 1])
    ensures forall k :: |r| <= k < |s| ==> IsSpace(s[k])
  {
    if |s| > 0 && IsSpace(s[|s| - 1]) then RStrip(s[..|s| - 1]) else s
  }

  /** `s.strip()` */
  function Strip(s: string): (r: string)
    ensures r == [] || (!IsSpace(r[0]) && !IsSpace(r[|r| - 1]))
  {
    RStrip(LStrip(s))
  }

  /** A string that starts and ends with a non-space character is its own strip. */
  lemma StripTrimmed(s: string)
    requires |s| > 0 && !IsSpace(s[0]) && !IsSpace(s[|s| - 1])
    ensures Strip(s) == s
  {
  }

  /** A trailing space is stripped away. */
  lemma StripTrailingSpace(u: string)
    requires |u| > 0 && !IsSpace(u[0]) && !IsSpace(u[|u| - 1])
    ensures Strip(u + " ") == u
  {
    var t := u + " ";
    assert LStrip(t) == t;
    assert t[..|t| - 1] == u;
    assert RStrip(t) == RStrip(u);
    StripTrimmed(u);
  }

  /** The longest prefix of `s` without whitespace. */
  function Word(s: string): (r: string)
    ensures |r| <= |s| && r == s[..|r|] && NoSpace(r)
    ensures |r| < |s| ==> IsSpace(s[|r|])
  {
    if |s| > 0 && !IsSpace(s[0]) then [s[0]] + Word(s[1..]) else []
  }

  lemma WordOfNoSpace(w: string, rest: string)
    requires NoSpace(w)
    requires rest == [] || IsSpace(rest[0])
    ensures Word(w + rest) == w
    decreases |w|
  {
    if |w| > 0 {
      assert (w + rest)[1..] == w[1..] + rest;
      WordOfNoSpace(w[1..], rest);
    }
  }

  /** `s.split()`: the maximal runs of non-whitespace characters, in order. */
  function SplitWs(s: string): (r: seq<string>)
    ensures forall t :: t in r ==> |t| > 0 && NoSpace(t)
    decreases |s|
  {
    var t := LStrip(s);
    if t == [] then [] else
      var w := Word(t);
      [w] + SplitWs(t[|w|..])
  }

  /** Leading whitespace does not change the split. */
  lemma SplitWsLeadingSpace(x: string)
    ensures SplitWs(" " + x) == SplitWs(x)
  {
    assert (" " + x)[1..] == x;
    assert LStrip(" " + x) == LStrip(x);
  }

  /** Splitting a word followed by a space and more text peels that word off. */
  lemma SplitWsCons(w: string, rest: string)
    requires |w| > 0 && NoSpace(w)
    ensures SplitWs(w + " " + rest) == [w] + SplitWs(rest)
  {
    var s := w + " " + rest;
    assert LStrip(s) == s;
    WordOfNoSpace(w, " " + rest);
    assert s == w + (" " + rest);
    assert Word(s) == w;
    assert s[|w|..] == " " + rest;
    SplitWsLeadingSpace(rest);
  }

  lemma SplitWsSingle(w: string)
    requires |w| > 0 && NoSpace(w)
    ensures SplitWs(w) == [w]
  {
    assert LStrip(w) == w;
    WordOfNoSpace(w, []);
    assert w + [] == w;
  }

  lemma ConsSingle(a: string, x: seq<string>, b: string, y: seq<string>)
    requires x == [b] && y == [a] + x
    ensures y == [a, b]
  {
  }

  lemma ConsPair(a: string, x: seq<string>, b: string, c: string, y: seq<string>)
    requires x == [b, c] && y == [a] + x
    ensures y == [a, b, c]
  {
  }

  lemma SplitWsTwo(a: string, b: string)
    requires |a| > 0 && NoSpace(a) && |b| > 0 && NoSpace(b)
    ensures SplitWs(a + " " + b) == [a, b]
  {
    SplitWsCons(a, b);
    SplitWsSingle(b);
    ConsSingle(a, SplitWs(b), b, SplitWs(a + " " + b));
  }

  lemma SplitWsThree(a: string, b: string, c: string)
    requires |a| > 0 && NoSpace(a) && |b| > 0 && NoSpace(b) && |c| > 0 && NoSpace(c)
    ensures SplitWs(a + " " + b + " " + c) == [a, b, c]
  {
    var bc := b + " " + c;
    Regroup(a, " ", b, c);
    SplitWsCons(a, bc);
    SplitWsTwo(b, c);
    ConsPair(a, SplitWs(bc), b, c, SplitWs(a + " " + bc));
  }

  lemma Regroup(a: string, sep: string, b: string, c: string)
    ensures a + sep + b + sep + c == a + sep + (b + sep + c)
  {
  }

  /** A string holding a non-space character splits into at least one word. */
  lemma SplitWsNonEmpty(s: string, k: nat)
    requires k < |s| && !IsSpace(s[k])
    ensures |SplitWs(s)| > 0
  {
    assert LStrip(s) != [];
  }

  /** `sep.join(parts)` */
  function Join(parts: seq<string>, sep: string): string {
    if |parts| == 0 then []
    else if |parts| == 1 then parts[0]
    else parts[0] + sep + Join(parts[1..], sep)
  }

  /** Index of the first occurrence of `c` in `s`. */
  function IndexOf(s: string, c: char): (i: nat)
    requires c in s
    ensures i < |s| && s[i] == c && c !in s[..i]
  {
    if s[0] == c then 0 else 1 + IndexOf(s[1..], c)
  }

  /** `s.split(c)` for a one-character separator: never empty, and no piece contains `c`. */
  function SplitOn(s: string, c: char): (r: seq<string>)
    ensures |r| >= 1
    ensures forall p :: p in r ==> c !in p
    decreases |s|
  {
    if c in s then
      var i := IndexOf(s, c);
      [s[..i]] + SplitOn(s[i + 1..], c)
    else [s]
  }

  /** Joining the pieces of a split with the separator gives back the string. */
  lemma {:induction false} JoinSplitOn(s: string, c: char)
    ensures Join(SplitOn(s, c), [c]) == s
    decreases |s|
  {
    if c in s {
      var i := IndexOf(s, c);
      var rest := SplitOn(s[i + 1..], c);
      JoinCons(s[..i], rest, [c]);
      JoinSplitOn(s[i + 1..], c);
      SplitAround(s, i);
    }
  }

  lemma JoinCons(x: string, rest: seq<string>, sep: string)
    requires |rest| >= 1
    ensures Join([x] + rest, sep) == x + sep + Join(rest, sep)
  {
    assert ([x] + rest)[1..] == rest;
  }

  /** Splitting pieces joined with the separator gives back the pieces, when no piece contains it. */
  lemma {:induction false} SplitJoinOn(parts: seq<string>, c: char)
    requires |parts| >= 1
    requires forall k :: 0 <= k < |parts| ==> c !in parts[k]
    ensures SplitOn(Join(parts, [c]), c) == parts
  {
    if |parts| > 1 {
      var rest := Join(parts[1..], [c]);
      var s := parts[0] + [c] + rest;
      assert s[|parts[0]|] == c;
      assert s[..|parts[0]|] == parts[0];
      assert c in s;
      assert IndexOf(s, c) == |parts[0]|;
      assert s[|parts[0]| + 1..] == rest;
      SplitJoinOn(parts[1..], c);
    }
  }

  /** A string without the separator is a single piece. */
  lemma SplitOnWithout(s: string, c: char)
    requires c !in s
    ensures SplitOn(s, c) == [s]
  {
  }

  /** A separator between two strings splits them apart. */
  lemma {:induction false} SplitOnAppend(a: string, b: string, c: char)
    ensures SplitOn(a + [c] + b, c) == SplitOn(a, c) + SplitOn(b, c)
    decreases |a|
  {
    var s := a + [c] + b;
    if c in a {
      var i := IndexOf(a, c);
      var a' := a[i + 1..];
      SplitOnAfterFirst(a, [c] + b, c);
      AppendAssoc(a, [c], b);
      AppendAssoc(a', [c], b);
      SplitOnAppend(a', b, c);
      AppendAssoc([a[..i]], SplitOn(a', c), SplitOn(b, c));
    } else {
      IndexOfAt(s, c, |a|);
      assert s[..|a|] == a && s[|a| + 1..] == b;
    }
  }

  /** Text after `a` does not move the first separator inside `a`. */
  lemma SplitOnAfterFirst(a: string, t: string, c: char)
    requires c in a
    ensures var i := IndexOf(a, c);
      SplitOn(a + t, c) == [a[..i]] + SplitOn(a[i + 1..] + t, c)
  {
    var i := IndexOf(a, c);
    var s := a + t;
    IndexOfAt(s, c, i);
    assert s[..i] == a[..i];
    assert s[i + 1..] == a[i + 1..] + t;
  }

  /** `IndexOf` finds the first occurrence, wherever it is. */
  lemma IndexOfAt(s: string, c: char, i: nat)
    requires i < |s| && s[i] == c && c !in s[..i]
    ensures IndexOf(s, c) == i
  {
    var k := IndexOf(s, c);
  }



  /** `s.lower()` restricted to ASCII letters. */
  function Lower(s: string): (r: string)
    ensures |r| == |s|
    ensures forall k :: 0 <= k < |s| ==>
      r[k] == (if 'A' <= s[k] <= 'Z' then (s[k] as int + 32) as char else s[k])
  {
    if |s| == 0 then [] else
      [if 'A' <= s[0] <= 'Z' then (s[0] as int + 32) as char else s[0]] + Lower(s[1..])
  }

  /** `s.lower() == 'true'` */
  predicate SaysTrue(s: string) {
    Lower(s) == "true"
  }

  /** The spellings `SaysTrue` accepts: "true" in any mix of upper and lower case, and nothing else. */
  lemma SaysTrueSpelling(s: string)
    ensures SaysTrue(s) <==> |s| == 4 && s[0] in "tT" && s[1] in "rR" && s[2] in "uU" && s[3] in "eE"
  {
    if |s| == 4 {
      var l := Lower(s);
      assert l[0] == 't' <==> s[0] in "tT";
      assert l[1] == 'r' <==> s[1] in "rR";
      assert l[2] == 'u' <==> s[2] in "uU";
      assert l[3] == 'e' <==> s[3] in "eE";
      assert SaysTrue(s) <==> l[0] == 't' && l[1] == 'r' && l[2] == 'u' && l[3] == 'e';
    } else {
      assert |Lower(s)| != |"true"|;
    }
  }
}
