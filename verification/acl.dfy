/**
  The broker's access-control list as the administration endpoints read and
  rewrite it. The file is a list of lines: `user <name>` opens a user's block
  and `topic <access> <topic>` lines inside it grant permissions. The endpoints
  parse it into users, delete a user's block, replace a block's body, and
  append a new block.
*/
module Acl {
  import opened Wrappers
  import opened Text
  import Json
  import Http
  import opened Seqs

  datatype Permission = Permission(access: string, topic: string)

  datatype AclUser = AclUser(name: string, perms: seq<Permission>)

  /** How the parser sees one line, once stripped. */
  datatype LineKind = HeaderLine(name: string) | TopicLine(perm: Permission) | OtherLine

  /** The lines of a file: `content.split('\n')`. */
  function Lines(content: string): (ls: seq<string>)
    ensures |ls| >= 1
    ensures forall l :: l in ls ==> '\n' !in l
  {
    SplitOn(content, '\n')
  }

  /** A stripped line starting `user ` has a second word: the strip leaves a non-space character after the prefix. */
  lemma HeaderHasName(t: string)
    requires StartsWith(t, "user ") && !IsSpace(t[|t| - 1])
    ensures |SplitWs(t)| >= 2 && SplitWs(t)[0] == "user"
  {
    var rest := t[5..];
    PrefixRest(t, "user ");
    assert "user " == "user" + " ";
    KeywordsAreWords();
    SplitWsCons("user", rest);
    SplitWsNonEmpty(rest, |rest| - 1);
  }

  /**
    A stripped line starting `user ` names the user after it (the second word);
    one starting `topic ` with at least three words grants the second word's
    access on the remaining words joined by single spaces; any other line,
    including a shorter `topic` line, is ignored.
  */
  function Classify(line: string): (k: LineKind)
    ensures k.HeaderLine? <==> StartsWith(Strip(line), "user ")
    ensures k.HeaderLine? ==> |k.name| > 0 && NoSpace(k.name)
    ensures k.HeaderLine? ==> |SplitWs(Strip(line))| >= 2 && k.name == SplitWs(Strip(line))[1]
    ensures k.TopicLine? <==> !StartsWith(Strip(line), "user ") && StartsWith(Strip(line), "topic ") && |SplitWs(Strip(line))| >= 3
    ensures k.TopicLine? ==>
      var parts := SplitWs(Strip(line)); k.perm == Permission(parts[1], Join(parts[2..], " "))
  {
    ClassifyStripped(Strip(line))
  }

  /** The classification of a line already stripped of surrounding whitespace. */
  function ClassifyStripped(t: string): (k: LineKind)
    requires t == [] || !IsSpace(t[|t| - 1])
    ensures k.HeaderLine? <==> StartsWith(t, "user ")
    ensures k.HeaderLine? ==> |k.name| > 0 && NoSpace(k.name)
    ensures k.HeaderLine? ==> |SplitWs(t)| >= 2 && k.name == SplitWs(t)[1]
    ensures k.TopicLine? <==> !StartsWith(t, "user ") && StartsWith(t, "topic ") && |SplitWs(t)| >= 3
    ensures k.TopicLine? ==> var parts := SplitWs(t); k.perm == Permission(parts[1], Join(parts[2..], " "))
  {
    if StartsWith(t, "user ") then
      HeaderHasName(t);
      HeaderLine(SplitWs(t)[1])
    else if StartsWith(t, "topic ") then
      var parts := SplitWs(t);
      if |parts| >= 3 then TopicLine(Permission(parts[1], Join(parts[2..], " "))) else OtherLine
    else OtherLine
  }

  /** The classification of each line. */
  function Kinds(lines: seq<string>): (ks: seq<LineKind>)
    ensures |ks| == |lines|
    ensures forall i :: 0 <= i < |lines| ==> ks[i] == Classify(lines[i])
  {
    seq(|lines|, i requires 0 <= i < |lines| => Classify(lines[i]))
  }

  lemma KindsAppend(a: seq<string>, b: seq<string>)
    ensures Kinds(a + b) == Kinds(a) + Kinds(b)
  {
  }

  /** The user being read, if any, as the list it contributes. */
  function Flush(cur: Option<AclUser>): (r: seq<AclUser>)
    ensures |r| == if cur.Some? then 1 else 0
  {
    if cur.Some? then [cur.value] else []
  }

  /** Add a permission to the user being read; with no user yet it is dropped. */
  function Grant(cur: Option<AclUser>, p: Permission): (r: Option<AclUser>)
    ensures r.Some? <==> cur.Some?
    ensures r.Some? ==> r.value.name == cur.value.name && r.value.perms == cur.value.perms + [p]
  {
    match cur
    case None => None
    case Some(u) => Some(u.(perms := u.perms + [p]))
  }

  /**
    One line's effect on the parse: the users it closes and the user being read
    after it. A header closes the current user and opens a new one, a topic
    line extends the current one, any other line changes nothing.
  */
  function Step(cur: Option<AclUser>, k: LineKind): (res: (seq<AclUser>, Option<AclUser>))
    ensures k.HeaderLine? ==> res.0 == Flush(cur) && res.1 == Some(AclUser(k.name, []))
    ensures !k.HeaderLine? ==> res.0 == []
    ensures k.OtherLine? ==> res.1 == cur
  {
    match k
    case HeaderLine(n) => (Flush(cur), Some(AclUser(n, [])))
    case TopicLine(p) => ([], Grant(cur, p))
    case OtherLine => ([], cur)
  }

  /**
    The users of classified lines read on from the state where `cur` is being
    read; the end of the file closes the last user.
  */
  function ParseFrom(ks: seq<LineKind>, cur: Option<AclUser>): seq<AclUser>
    decreases |ks|
  {
    if |ks| == 0 then Flush(cur)
    else
      var (done, next) := Step(cur, ks[0]);
      done + ParseFrom(ks[1..], next)
  }

  /** The users of an ACL file, in file order. */
  function Users(content: string): seq<AclUser> {
    ParseFrom(Kinds(Lines(content)), None)
  }

  /** Reading line `i` moves the users it closes from the unread part to the result. */
  lemma ParseFromStep(ks: seq<LineKind>, i: nat, users: seq<AclUser>, cur: Option<AclUser>)
    requires i < |ks|
    requires users + ParseFrom(ks[i..], cur) == ParseFrom(ks, None)
    ensures var step := Step(cur, ks[i]);
      (users + step.0) + ParseFrom(ks[i + 1..], step.1) == ParseFrom(ks, None)
  {
    var step := Step(cur, ks[i]);
    DropOne(ks, i);
    ParseFromCons(ks[i..], cur);
    AppendAssoc(users, step.0, ParseFrom(ks[i + 1..], step.1));
  }

  lemma ParseFromCons(ks: seq<LineKind>, cur: Option<AclUser>)
    requires |ks| > 0
    ensures ParseFrom(ks, cur) == Step(cur, ks[0]).0 + ParseFrom(ks[1..], Step(cur, ks[0]).1)
  {
  }

  /**
    The `get_users` loop: one pass over the lines, holding the name and
    permissions of the user being read. It computes `Users`.
  */
  method ParseUsers(content: string) returns (users: seq<AclUser>)
    ensures users == Users(content)
  {
    var lines := Lines(content);
    ghost var ks := Kinds(lines);
    users := [];
    var current: Option<AclUser> := None;
    var i := 0;
    while i < |lines|
      invariant 0 <= i <= |lines|
      invariant users + ParseFrom(ks[i..], current) == ParseFrom(ks, None)
    {
      var kind := Classify(lines[i]);
      ParseFromStep(ks, i, users, current);
      var step := Step(current, kind);
      users := users + step.0;
      current := step.1;
      i := i + 1;
    }
    assert ks[i..] == [];
    users := users + Flush(current);
  }

  // ---- What the parse promises ----

  function Names(users: seq<AclUser>): (ns: seq<string>)
    ensures |ns| == |users|
    ensures forall i :: 0 <= i < |users| ==> ns[i] == users[i].name
  {
    seq(|users|, i requires 0 <= i < |users| => users[i].name)
  }

  /** The names of the header lines, in file order, repeats included. */
  function HeaderNames(ks: seq<LineKind>): seq<string>
    decreases |ks|
  {
    if |ks| == 0 then []
    else (if ks[0].HeaderLine? then [ks[0].name] else []) + HeaderNames(ks[1..])
  }

  /** The permissions granted by the topic lines, in order. */
  function TopicsOf(ks: seq<LineKind>): seq<Permission>
    decreases |ks|
  {
    if |ks| == 0 then []
    else (if ks[0].TopicLine? then [ks[0].perm] else []) + TopicsOf(ks[1..])
  }

  predicate NoHeaders(ks: seq<LineKind>) {
    forall i :: 0 <= i < |ks| ==> !ks[i].HeaderLine?
  }

  lemma NamesAppend(a: seq<AclUser>, b: seq<AclUser>)
    ensures Names(a + b) == Names(a) + Names(b)
  {
  }

  lemma {:induction false} ParseNames(ks: seq<LineKind>, cur: Option<AclUser>)
    ensures Names(ParseFrom(ks, cur)) == Names(Flush(cur)) + HeaderNames(ks)
    decreases |ks|
  {
    if |ks| > 0 {
      var step := Step(cur, ks[0]);
      ParseNames(ks[1..], step.1);
      NamesAppend(step.0, ParseFrom(ks[1..], step.1));
    }
  }

  /**
    The parse yields one user per header line, named by the header's second
    word, in file order; a name given twice gives two users.
  */
  lemma UsersNamedByHeaders(content: string)
    ensures Names(Users(content)) == HeaderNames(Kinds(Lines(content)))
  {
    ParseNames(Kinds(Lines(content)), None);
  }

  /** Lines before the first header grant nothing to anyone. */
  lemma {:induction false} PreambleIgnored(pre: seq<LineKind>, rest: seq<LineKind>)
    requires NoHeaders(pre)
    ensures ParseFrom(pre + rest, None) == ParseFrom(rest, None)
    decreases |pre|
  {
    if |pre| > 0 {
      assert (pre + rest)[0] == pre[0] && (pre + rest)[1..] == pre[1..] + rest;
      assert Step(None, pre[0]) == ([], None);
      assert ParseFrom(pre + rest, None) == ParseFrom(pre[1..] + rest, None);
      PreambleIgnored(pre[1..], rest);
    } else {
      assert pre + rest == rest;
    }
  }

  /** A block body without headers adds its topic lines, in order, to the user being read. */
  lemma {:induction false} BodyGrantsCurrentUser(body: seq<LineKind>, rest: seq<LineKind>, u: AclUser)
    requires NoHeaders(body)
    ensures ParseFrom(body + rest, Some(u)) == ParseFrom(rest, Some(u.(perms := u.perms + TopicsOf(body))))
    decreases |body|
  {
    if |body| == 0 {
      assert body + rest == rest;
      assert u.perms + [] == u.perms;
    } else {
      var k := body[0];
      var u' := if k.TopicLine? then u.(perms := u.perms + [k.perm]) else u;
      assert ParseFrom(body + rest, Some(u)) == ParseFrom(body[1..] + rest, Some(u')) by {
        assert (body + rest)[0] == k && (body + rest)[1..] == body[1..] + rest;
        assert Step(Some(u), k) == ([], Some(u'));
      }
      BodyGrantsCurrentUser(body[1..], rest, u');
      assert TopicsOf(body) == (if k.TopicLine? then [k.perm] else []) + TopicsOf(body[1..]);
      assert u.perms + TopicsOf(body) == u'.perms + TopicsOf(body[1..]);
    }
  }

  /** A header ends whatever came before it: the parse of what follows starts afresh. */
  lemma {:induction false} ParseAppend(a: seq<LineKind>, b: seq<LineKind>, cur: Option<AclUser>)
    requires |b| > 0 && b[0].HeaderLine?
    ensures ParseFrom(a + b, cur) == ParseFrom(a, cur) + ParseFrom(b, None)
    decreases |a|
  {
    if |a| == 0 {
      assert a + b == b;
    } else {
      assert (a + b)[0] == a[0] && (a + b)[1..] == a[1..] + b;
      var step := Step(cur, a[0]);
      ParseAppend(a[1..], b, step.1);
    }
  }

  /** Before a header, the user being read is closed as it stands. */
  lemma HeaderCloses(ks: seq<LineKind>, cur: Option<AclUser>)
    requires |ks| > 0 && ks[0].HeaderLine?
    ensures ParseFrom(ks, cur) == Flush(cur) + ParseFrom(ks, None)
  {
    assert ParseFrom(ks, None) == ParseFrom(ks[1..], Some(AclUser(ks[0].name, [])));
  }

  /** The end of the file, or a header, closes the user being read. */
  lemma UserClosedAt(after: seq<LineKind>, u: AclUser)
    requires after == [] || after[0].HeaderLine?
    ensures ParseFrom(after, Some(u)) == [u] + ParseFrom(after, None)
  {
    if after != [] {
      HeaderCloses(after, Some(u));
    }
  }

  /** A block parsed on its own: the header's user with the body's grants, then what follows afresh. */
  lemma BlockAlone(name: string, body: seq<LineKind>, after: seq<LineKind>)
    requires NoHeaders(body)
    requires after == [] || after[0].HeaderLine?
    ensures ParseFrom([HeaderLine(name)] + body + after, None) ==
      [AclUser(name, TopicsOf(body))] + ParseFrom(after, None)
  {
    var block := [HeaderLine(name)] + body + after;
    assert block[0] == HeaderLine(name) && block[1..] == body + after;
    assert ParseFrom(block, None) == ParseFrom(body + after, Some(AclUser(name, [])));
    BodyGrantsCurrentUser(body, after, AclUser(name, []));
    assert AclUser(name, []).(perms := [] + TopicsOf(body)) == AclUser(name, TopicsOf(body));
    UserClosedAt(after, AclUser(name, TopicsOf(body)));
  }

  /**
    A header, a body without headers, and then the end of the file or another
    header: the header's user gets exactly the body's topic lines, and nobody
    else gets any of them.
  */
  lemma BlockOwnsItsTopics(before: seq<LineKind>, name: string, body: seq<LineKind>, after: seq<LineKind>, cur: Option<AclUser>)
    requires NoHeaders(body)
    requires after == [] || after[0].HeaderLine?
    ensures ParseFrom(before + [HeaderLine(name)] + body + after, cur) ==
      ParseFrom(before, cur) + [AclUser(name, TopicsOf(body))] + ParseFrom(after, None)
  {
    var block := [HeaderLine(name)] + body + after;
    assert before + [HeaderLine(name)] + body + after == before + block;
    ParseAppend(before, block, cur);
    BlockAlone(name, body, after);
  }


  // ---- Lines the endpoints write ----

  /** A name or access word the parser reads back: non-empty, without whitespace. */
  predicate IsWord(w: string) {
    |w| > 0 && NoSpace(w)
  }

  /** A permission the parser reads back unchanged. */
  predicate WellFormed(p: Permission) {
    IsWord(p.access) && IsWord(p.topic)
  }

  function HeaderText(name: string): string {
    "user " + name
  }

  /** `f"topic {access} {topic}"` */
  function PermText(p: Permission): string {
    "topic " + p.access + " " + p.topic
  }

  lemma WordHasNoNewline(w: string)
    requires NoSpace(w)
    ensures '\n' !in w
  {
    forall k | 0 <= k < |w| ensures w[k] != '\n' {
      assert !IsSpace(w[k]);
    }
  }

  lemma HeaderBranch(t: string)
    requires StartsWith(t, "user ") && !IsSpace(t[|t| - 1])
    ensures |SplitWs(t)| >= 2 && ClassifyStripped(t) == HeaderLine(SplitWs(t)[1])
  {
    HeaderHasName(t);
  }

  lemma TopicBranch(t: string)
    requires !StartsWith(t, "user ") && StartsWith(t, "topic ") && !IsSpace(t[|t| - 1])
    requires |SplitWs(t)| >= 3
    ensures ClassifyStripped(t) == TopicLine(Permission(SplitWs(t)[1], Join(SplitWs(t)[2..], " ")))
  {
  }

  lemma HeaderTextShape(name: string)
    requires IsWord(name)
    ensures StartsWith(HeaderText(name), "user ") && !IsSpace(HeaderText(name)[|HeaderText(name)| - 1])
    ensures HeaderText(name) == "user" + " " + name
  {
  }

  lemma KeywordsAreWords()
    ensures IsWord("user") && IsWord("topic")
  {
    var u, t := "user", "topic";
    assert u[0] == 'u' && u[1] == 's' && u[2] == 'e' && u[3] == 'r';
    assert t[0] == 't' && t[1] == 'o' && t[2] == 'p' && t[3] == 'i' && t[4] == 'c';
  }

  lemma SecondOf(parts: seq<string>, a: string, b: string)
    requires parts == [a, b]
    ensures parts[1] == b
  {
  }

  lemma HeaderTextSplits(name: string)
    requires IsWord(name)
    ensures ClassifyStripped(HeaderText(name)) == HeaderLine(name)
  {
    var t := HeaderText(name);
    HeaderTextShape(name);
    HeaderBranch(t);
    KeywordsAreWords();
    SplitWsTwo("user", name);
    SecondOf(SplitWs(t), "user", name);
  }

  /** A line that strips to `user <name>`, for a single-word name, is that name's header. */
  lemma StrippedHeader(line: string, name: string)
    requires IsWord(name) && Strip(line) == HeaderText(name)
    ensures Classify(line) == HeaderLine(name)
  {
    HeaderTextSplits(name);
  }

  lemma HeaderTextClassified(name: string)
    requires IsWord(name)
    ensures Classify(HeaderText(name)) == HeaderLine(name)
    ensures '\n' !in HeaderText(name)
  {
    var t := HeaderText(name);
    StripTrimmed(t);
    HeaderTextSplits(name);
    WordHasNoNewline(name);
    assert '\n' !in "user ";
  }

  lemma PermFromParts(parts: seq<string>, p: Permission)
    requires parts == ["topic", p.access, p.topic]
    ensures |parts| >= 3 && Permission(parts[1], Join(parts[2..], " ")) == p
  {
    assert parts[2..] == [p.topic];
  }

  lemma PermTextShape(p: Permission)
    requires WellFormed(p)
    ensures !StartsWith(PermText(p), "user ") && StartsWith(PermText(p), "topic ")
    ensures !IsSpace(PermText(p)[|PermText(p)| - 1])
    ensures PermText(p) == "topic" + " " + p.access + " " + p.topic
  {
    assert PermText(p)[0] == 't';
  }

  lemma PermTextSplits(p: Permission)
    requires WellFormed(p)
    ensures ClassifyStripped(PermText(p)) == TopicLine(p)
  {
    var t := PermText(p);
    PermTextShape(p);
    KeywordsAreWords();
    SplitWsThree("topic", p.access, p.topic);
    PermFromParts(SplitWs(t), p);
    TopicBranch(t);
  }

  lemma PermTextClassified(p: Permission)
    requires WellFormed(p)
    ensures Classify(PermText(p)) == TopicLine(p)
    ensures '\n' !in PermText(p)
  {
    var t := PermText(p);
    PermTextShape(p);
    StripTrimmed(t);
    PermTextSplits(p);
    PermTextNoNewline(p);
  }

  lemma PermTextNoNewline(p: Permission)
    requires WellFormed(p)
    ensures '\n' !in PermText(p)
  {
    WordHasNoNewline(p.access);
    WordHasNoNewline(p.topic);
    assert '\n' !in "topic " && '\n' !in " ";
  }

  lemma EmptyLineIgnored()
    ensures Classify("") == OtherLine
  {
    assert Strip("") == "";
  }

  /** The classified form of `perms` written one per line. */
  function GrantKinds(perms: seq<Permission>): (ks: seq<LineKind>)
    ensures |ks| == |perms|
    ensures NoHeaders(ks)
  {
    seq(|perms|, i requires 0 <= i < |perms| => TopicLine(perms[i]))
  }

  lemma {:induction false} GrantKindsTopics(perms: seq<Permission>, tail: seq<LineKind>)
    requires NoHeaders(tail) && TopicsOf(tail) == []
    ensures TopicsOf(GrantKinds(perms) + tail) == perms
    decreases |perms|
  {
    if |perms| == 0 {
      assert GrantKinds(perms) + tail == tail;
    } else {
      assert (GrantKinds(perms) + tail)[1..] == GrantKinds(perms[1..]) + tail;
      GrantKindsTopics(perms[1..], tail);
    }
  }

  function PermLines(perms: seq<Permission>): (ls: seq<string>)
    ensures |ls| == |perms|
    ensures forall i :: 0 <= i < |perms| ==> ls[i] == PermText(perms[i])
  {
    seq(|perms|, i requires 0 <= i < |perms| => PermText(perms[i]))
  }

  lemma PermLinesClassified(perms: seq<Permission>)
    requires forall i :: 0 <= i < |perms| ==> WellFormed(perms[i])
    ensures Kinds(PermLines(perms)) == GrantKinds(perms)
    ensures forall i :: 0 <= i < |perms| ==> '\n' !in PermLines(perms)[i]
  {
    forall i | 0 <= i < |perms|
      ensures Kinds(PermLines(perms))[i] == GrantKinds(perms)[i] && '\n' !in PermLines(perms)[i]
    {
      PermTextClassified(perms[i]);
    }
  }

  /** One `topic` line per permission, each ending in a newline. */
  function PermBlock(perms: seq<Permission>): string
    decreases |perms|
  {
    if |perms| == 0 then "" else PermText(perms[0]) + "\n" + PermBlock(perms[1..])
  }

  lemma LinePlusRest(x: string, rest: seq<string>, tail: seq<string>, all: seq<string>, r: seq<string>)
    requires all == [x] + rest && rest == tail + [""] && r == [x] + tail
    ensures all == r + [""]
  {
  }

  lemma {:induction false} PermBlockLines(perms: seq<Permission>)
    requires forall i :: 0 <= i < |perms| ==> WellFormed(perms[i])
    ensures Lines(PermBlock(perms)) == PermLines(perms) + [""]
    decreases |perms|
  {
    if |perms| == 0 {
      assert Lines("") == [""];
    } else {
      var x, b := PermText(perms[0]), PermBlock(perms[1..]);
      assert Lines(PermBlock(perms)) == [x] + Lines(b) by {
        assert PermBlock(perms) == x + ['\n'] + b;
        assert Lines(x) == [x] by {
          PermTextClassified(perms[0]);
          SplitOnWithout(x, '\n');
        }
        SplitOnAppend(x, b, '\n');
      }
      assert Lines(b) == PermLines(perms[1..]) + [""] by {
        PermBlockLines(perms[1..]);
      }
      assert PermLines(perms) == [x] + PermLines(perms[1..]);
      LinePlusRest(x, Lines(b), PermLines(perms[1..]), Lines(PermBlock(perms)), PermLines(perms));
    }
  }

  // ---- create_user: append a block ----

  /**
    The text `create_user` writes: the old file, then a blank-line separator,
    the new user's header and one `topic` line per permission. The old file is
    kept as it is, and whether the user already has a block is not checked.
  */
  function AppendUser(current: string, name: string, perms: seq<Permission>): (r: string)
    ensures StartsWith(r, current)
    ensures r[|current|..] == "\n" + HeaderText(name) + "\n" + PermBlock(perms)
  {
    current + "\n" + HeaderText(name) + "\n" + PermBlock(perms)
  }

  /**
    For a single-word name and well-formed permissions, the appended file parses
    to the old users followed by the new one with exactly the given permissions.
  */
  /** The lines of the appended text: the old lines, the header, one line per permission, and an empty last line. */
  lemma AppendUserLines(current: string, name: string, perms: seq<Permission>)
    requires IsWord(name)
    requires forall i :: 0 <= i < |perms| ==> WellFormed(perms[i])
    ensures Lines(AppendUser(current, name, perms)) == Lines(current) + ([HeaderText(name)] + (PermLines(perms) + [""]))
  {
    var h, pb := HeaderText(name), PermBlock(perms);
    Regroup(current, "\n", h, pb);
    SplitOnAppend(current, h + "\n" + pb, '\n');
    SplitOnAppend(h, pb, '\n');
    HeaderTextClassified(name);
    SplitOnWithout(h, '\n');
    PermBlockLines(perms);
  }

  lemma AppendUserKinds(current: string, name: string, perms: seq<Permission>)
    requires IsWord(name)
    requires forall i :: 0 <= i < |perms| ==> WellFormed(perms[i])
    ensures Kinds(Lines(AppendUser(current, name, perms)))
         == Kinds(Lines(current)) + ([HeaderLine(name)] + (GrantKinds(perms) + [OtherLine]))
  {
    AppendUserLines(current, name, perms);
    var h := HeaderText(name);
    KindsAppend(Lines(current), [h] + (PermLines(perms) + [""]));
    KindsAppend([h], PermLines(perms) + [""]);
    KindsAppend(PermLines(perms), [""]);
    assert Kinds([h]) == [HeaderLine(name)] by {
      HeaderTextClassified(name);
    }
    assert Kinds([""]) == [OtherLine] by {
      EmptyLineIgnored();
    }
    PermLinesClassified(perms);
  }

  /**
    For a single-word name and well-formed permissions, the appended file parses
    to the old users followed by the new one with exactly the given permissions.
  */
  lemma AppendBlockParses(ks: seq<LineKind>, name: string, perms: seq<Permission>)
    ensures ParseFrom(ks + ([HeaderLine(name)] + (GrantKinds(perms) + [OtherLine])), None)
         == ParseFrom(ks, None) + [AclUser(name, perms)]
  {
    var body := GrantKinds(perms) + [OtherLine];
    ParseAppend(ks, [HeaderLine(name)] + body, None);
    assert ParseFrom([HeaderLine(name)] + body, None) == [AclUser(name, perms)] by {
      GrantKindsTopics(perms, [OtherLine]);
      BlockAlone(name, body, []);
      assert [HeaderLine(name)] + body + [] == [HeaderLine(name)] + body;
    }
  }

  lemma AppendUserParses(current: string, name: string, perms: seq<Permission>)
    requires IsWord(name)
    requires forall i :: 0 <= i < |perms| ==> WellFormed(perms[i])
    ensures Users(AppendUser(current, name, perms)) == Users(current) + [AclUser(name, perms)]
  {
    AppendUserKinds(current, name, perms);
    AppendBlockParses(Kinds(Lines(current)), name, perms);
  }



  // ---- delete_user: drop a user's blocks ----

  /** The users not named `name`, in order. */
  function Without(users: seq<AclUser>, name: string): (r: seq<AclUser>)
    ensures forall u :: u in r <==> u in users && u.name != name
    ensures |r| <= |users|
  {
    if |users| == 0 then []
    else (if users[0].name == name then [] else [users[0]]) + Without(users[1..], name)
  }

  lemma {:induction false} WithoutAppend(a: seq<AclUser>, b: seq<AclUser>, name: string)
    ensures Without(a + b, name) == Without(a, name) + Without(b, name)
    decreases |a|
  {
    if |a| == 0 {
      assert a + b == b;
    } else {
      assert (a + b)[0] == a[0] && (a + b)[1..] == a[1..] + b;
      WithoutAppend(a[1..], b, name);
    }
  }

  /** The delete loop over classified lines: `skip` is on from a header naming `name` up to the next header. */
  function DeleteKinds(ks: seq<LineKind>, name: string, skip: bool): (r: seq<LineKind>)
    decreases |ks|
  {
    if |ks| == 0 then []
    else if ks[0] == HeaderLine(name) then DeleteKinds(ks[1..], name, true)
    else
      var skip' := if ks[0].HeaderLine? then false else skip;
      (if skip' then [] else [ks[0]]) + DeleteKinds(ks[1..], name, skip')
  }

  predicate NotNamed(cur: Option<AclUser>, name: string) {
    cur.None? || cur.value.name != name
  }

  lemma FlushWithout(cur: Option<AclUser>, rest: seq<AclUser>, name: string)
    requires NotNamed(cur, name)
    ensures Without(Flush(cur) + rest, name) == Flush(cur) + Without(rest, name)
  {
    WithoutAppend(Flush(cur), rest, name);
  }

  /**
    Outside a deleted block, the lines the delete loop keeps parse to the users
    of the original lines without those named `name`.
  */
  lemma {:induction false} DeleteKeeping(ks: seq<LineKind>, name: string, cur: Option<AclUser>)
    requires NotNamed(cur, name)
    ensures ParseFrom(DeleteKinds(ks, name, false), cur) == Without(ParseFrom(ks, cur), name)
    decreases |ks|, 1
  {
    if |ks| == 0 {
      FlushWithout(cur, [], name);
    } else if ks[0] == HeaderLine(name) {
      var u := AclUser(name, []);
      assert ParseFrom(ks, cur) == Flush(cur) + ParseFrom(ks[1..], Some(u));
      FlushWithout(cur, ParseFrom(ks[1..], Some(u)), name);
      DeleteSkipping(ks[1..], name, u, cur);
    } else if ks[0].HeaderLine? {
      var u := AclUser(ks[0].name, []);
      assert DeleteKinds(ks, name, false) == [ks[0]] + DeleteKinds(ks[1..], name, false);
      HeaderStep(ks[0], DeleteKinds(ks[1..], name, false), cur);
      assert ParseFrom(ks, cur) == Flush(cur) + ParseFrom(ks[1..], Some(u));
      FlushWithout(cur, ParseFrom(ks[1..], Some(u)), name);
      DeleteKeeping(ks[1..], name, Some(u));
    } else {
      var next := Step(cur, ks[0]).1;
      assert DeleteKinds(ks, name, false) == [ks[0]] + DeleteKinds(ks[1..], name, false);
      BodyStep(ks[0], DeleteKinds(ks[1..], name, false), cur);
      assert ParseFrom(ks, cur) == ParseFrom(ks[1..], next);
      DeleteKeeping(ks[1..], name, next);
    }
  }

  /**
    Inside a block of `name` (being read as `u`), the delete loop drops lines up
    to the next header while the output still reads `cur`, the user open before
    the deleted header.
  */
  lemma {:induction false} DeleteSkipping(ks: seq<LineKind>, name: string, u: AclUser, cur: Option<AclUser>)
    requires u.name == name && NotNamed(cur, name)
    ensures ParseFrom(DeleteKinds(ks, name, true), cur) == Flush(cur) + Without(ParseFrom(ks, Some(u)), name)
    decreases |ks|, 1
  {
    if |ks| == 0 {
      assert Without([u], name) == [];
    } else if ks[0] == HeaderLine(name) {
      SkipAtOwnHeader(ks, name, u, cur);
    } else if ks[0].HeaderLine? {
      SkipAtOtherHeader(ks, name, u, cur);
    } else {
      var u' := Step(Some(u), ks[0]).1.value;
      assert DeleteKinds(ks, name, true) == DeleteKinds(ks[1..], name, true);
      assert ParseFrom(ks, Some(u)) == ParseFrom(ks[1..], Some(u'));
      DeleteSkipping(ks[1..], name, u', cur);
    }
  }

  /** A repeated header of the deleted user keeps the loop skipping. */
  lemma {:induction false} SkipAtOwnHeader(ks: seq<LineKind>, name: string, u: AclUser, cur: Option<AclUser>)
    requires u.name == name && NotNamed(cur, name)
    requires |ks| > 0 && ks[0] == HeaderLine(name)
    ensures ParseFrom(DeleteKinds(ks, name, true), cur) == Flush(cur) + Without(ParseFrom(ks, Some(u)), name)
    decreases |ks|, 0
  {
    var u' := AclUser(name, []);
    assert Without(ParseFrom(ks, Some(u)), name) == Without(ParseFrom(ks[1..], Some(u')), name) by {
      assert ParseFrom(ks, Some(u)) == [u] + ParseFrom(ks[1..], Some(u'));
      WithoutAppend([u], ParseFrom(ks[1..], Some(u')), name);
      assert Without([u], name) == [];
    }
    DeleteSkipping(ks[1..], name, u', cur);
  }

  /** Another user's header ends the skipped block; that header is kept. */
  lemma {:induction false} SkipAtOtherHeader(ks: seq<LineKind>, name: string, u: AclUser, cur: Option<AclUser>)
    requires u.name == name && NotNamed(cur, name)
    requires |ks| > 0 && ks[0].HeaderLine? && ks[0] != HeaderLine(name)
    ensures ParseFrom(DeleteKinds(ks, name, true), cur) == Flush(cur) + Without(ParseFrom(ks, Some(u)), name)
    decreases |ks|, 0
  {
    var v := AclUser(ks[0].name, []);
    assert ParseFrom(DeleteKinds(ks, name, true), cur)
        == Flush(cur) + ParseFrom(DeleteKinds(ks[1..], name, false), Some(v)) by {
      assert DeleteKinds(ks, name, true) == [ks[0]] + DeleteKinds(ks[1..], name, false);
      HeaderStep(ks[0], DeleteKinds(ks[1..], name, false), cur);
    }
    assert Without(ParseFrom(ks, Some(u)), name) == Without(ParseFrom(ks[1..], Some(v)), name) by {
      assert ParseFrom(ks, Some(u)) == [u] + ParseFrom(ks[1..], Some(v));
      WithoutAppend([u], ParseFrom(ks[1..], Some(v)), name);
      assert Without([u], name) == [];
    }
    DeleteKeeping(ks[1..], name, Some(v));
  }

  lemma HeaderStep(k: LineKind, rest: seq<LineKind>, cur: Option<AclUser>)
    requires k.HeaderLine?
    ensures ParseFrom([k] + rest, cur) == Flush(cur) + ParseFrom(rest, Some(AclUser(k.name, [])))
  {
    assert ([k] + rest)[1..] == rest;
  }

  lemma BodyStep(k: LineKind, rest: seq<LineKind>, cur: Option<AclUser>)
    requires !k.HeaderLine?
    ensures ParseFrom([k] + rest, cur) == ParseFrom(rest, Step(cur, k).1)
  {
    assert ([k] + rest)[1..] == rest;
  }

  /**
    `delete_user`'s loop over the lines of the file: a line that strips to
    `user <name>` starts skipping and is dropped, any other line stripping to a
    `user ` header stops skipping, and lines are kept while not skipping.
  */
  function DeleteLines(lines: seq<string>, name: string, skip: bool): (r: seq<string>)
    ensures |r| <= |lines|
    ensures forall i :: 0 <= i < |r| ==> r[i] in lines
    decreases |lines|
  {
    if |lines| == 0 then []
    else
      var t := Strip(lines[0]);
      if t == HeaderText(name) then DeleteLines(lines[1..], name, true)
      else
        var skip' := if StartsWith(t, "user ") then false else skip;
        (if skip' then [] else [lines[0]]) + DeleteLines(lines[1..], name, skip')
  }

  /** The new file text: the kept lines joined with newlines. */
  function DeleteText(content: string, name: string): string {
    Join(DeleteLines(Lines(content), name, false), "\n")
  }

  /**
    Every header line naming `name` is written exactly `user <name>` up to
    surrounding whitespace, so the text match the delete and update loops use
    finds all of that user's blocks (a header such as `user  bob` with two
    spaces parses as bob's but is not matched).
  */
  predicate Canonical(lines: seq<string>, name: string) {
    forall i :: 0 <= i < |lines| ==> Classify(lines[i]) == HeaderLine(name) ==> Strip(lines[i]) == HeaderText(name)
  }

  /** For a canonical line, the text tests of the rewrite loops agree with its classification. */
  lemma LineTests(line: string, name: string)
    requires IsWord(name)
    requires Classify(line) == HeaderLine(name) ==> Strip(line) == HeaderText(name)
    ensures Strip(line) == HeaderText(name) <==> Classify(line) == HeaderLine(name)
    ensures StartsWith(Strip(line), "user ") <==> Classify(line).HeaderLine?
  {
    if Strip(line) == HeaderText(name) {
      StrippedHeader(line, name);
    }
  }

  /** The first step of the delete loop, stated with the line's classification. */
  lemma DeleteLinesHead(lines: seq<string>, name: string, skip: bool)
    requires IsWord(name) && |lines| > 0
    requires Classify(lines[0]) == HeaderLine(name) ==> Strip(lines[0]) == HeaderText(name)
    ensures var k := Classify(lines[0]);
      var next := if k == HeaderLine(name) then true else if k.HeaderLine? then false else skip;
      DeleteLines(lines, name, skip) == (if next then [] else [lines[0]]) + DeleteLines(lines[1..], name, next)
  {
    LineTests(lines[0], name);
  }

  lemma DeleteKindsHead(ks: seq<LineKind>, name: string, skip: bool)
    requires |ks| > 0
    ensures var next := if ks[0] == HeaderLine(name) then true else if ks[0].HeaderLine? then false else skip;
      DeleteKinds(ks, name, skip) == (if next then [] else [ks[0]]) + DeleteKinds(ks[1..], name, next)
  {
  }

  lemma CanonicalTail(lines: seq<string>, name: string)
    requires |lines| > 0 && Canonical(lines, name)
    ensures Canonical(lines[1..], name)
    ensures Classify(lines[0]) == HeaderLine(name) ==> Strip(lines[0]) == HeaderText(name)
  {
    forall i | 0 <= i < |lines[1..]| ensures lines[1..][i] == lines[i + 1] { }
  }

  lemma KindsCons(x: string, a: seq<string>, b: seq<string>)
    ensures Kinds([x] + (a + b)) == [Classify(x)] + (Kinds(a) + Kinds(b))
  {
    KindsAppend([x], a + b);
    KindsAppend(a, b);
    assert Kinds([x]) == [Classify(x)] by { KindsHead([x]); }
  }

  lemma KindsMaybe(x: string, drop: bool)
    ensures Kinds(if drop then [] else [x]) == if drop then [] else [Classify(x)]
  {
  }

  lemma KindsHead(lines: seq<string>)
    requires |lines| > 0
    ensures Kinds(lines)[0] == Classify(lines[0]) && Kinds(lines)[1..] == Kinds(lines[1..])
  {
  }

  lemma {:induction false} DeleteLinesKinds(lines: seq<string>, name: string, skip: bool)
    requires IsWord(name) && Canonical(lines, name)
    ensures Kinds(DeleteLines(lines, name, skip)) == DeleteKinds(Kinds(lines), name, skip)
    decreases |lines|
  {
    if |lines| > 0 {
      var k := Classify(lines[0]);
      var next := if k == HeaderLine(name) then true else if k.HeaderLine? then false else skip;
      var keep: seq<string> := if next then [] else [lines[0]];
      CanonicalTail(lines, name);
      DeleteLinesHead(lines, name, skip);
      KindsHead(lines);
      DeleteKindsHead(Kinds(lines), name, skip);
      DeleteLinesKinds(lines[1..], name, next);
      KindsAppend(keep, DeleteLines(lines[1..], name, next));
      KindsMaybe(lines[0], next);
    }
  }

  /** Joining lines that hold no newline and reading the result back gives the users of those lines. */
  lemma JoinedLinesParse(out: seq<string>)
    requires forall l :: l in out ==> '\n' !in l
    ensures Users(Join(out, "\n")) == ParseFrom(Kinds(out), None)
  {
    if |out| == 0 {
      assert Join(out, "\n") == "";
      assert Lines("") == [""];
      EmptyLineIgnored();
      assert Kinds([""]) == [OtherLine];
    } else {
      assert "\n" == ['\n'];
      SplitJoinOn(out, '\n');
    }
  }

  /**
    For a single-word name whose headers are all written canonically, the
    rewritten file parses to the old users except the deleted one, in the same
    order and with the same permissions.
  */
  lemma DeleteTextParses(content: string, name: string)
    requires IsWord(name) && Canonical(Lines(content), name)
    ensures Users(DeleteText(content, name)) == Without(Users(content), name)
  {
    var lines := Lines(content);
    var out := DeleteLines(lines, name, false);
    JoinedLinesParse(out);
    DeleteLinesKinds(lines, name, false);
    DeleteKeeping(Kinds(lines), name, None);
  }

  /** A file with no header matching `name` is written back unchanged. */
  lemma {:induction false} DeleteLinesNoMatch(lines: seq<string>, name: string)
    requires forall i :: 0 <= i < |lines| ==> Strip(lines[i]) != HeaderText(name)
    ensures DeleteLines(lines, name, false) == lines
    decreases |lines|
  {
    if |lines| > 0 {
      NoMatchTail(lines, name);
      DeleteLinesKeepsHead(lines, name);
      DeleteLinesNoMatch(lines[1..], name);
      HeadTail(lines);
    }
  }

  lemma NoMatchTail(lines: seq<string>, name: string)
    requires |lines| > 0
    requires forall i :: 0 <= i < |lines| ==> Strip(lines[i]) != HeaderText(name)
    ensures forall i :: 0 <= i < |lines[1..]| ==> Strip(lines[1..][i]) != HeaderText(name)
  {
    forall i | 0 <= i < |lines[1..]| ensures lines[1..][i] == lines[i + 1] { }
  }

  /** Outside a deleted block, a line that is not the user's header is kept. */
  lemma DeleteLinesKeepsHead(lines: seq<string>, name: string)
    requires |lines| > 0 && Strip(lines[0]) != HeaderText(name)
    ensures DeleteLines(lines, name, false) == [lines[0]] + DeleteLines(lines[1..], name, false)
  {
  }

  lemma DeleteTextNoMatch(content: string, name: string)
    requires forall i :: 0 <= i < |Lines(content)| ==> Strip(Lines(content)[i]) != HeaderText(name)
    ensures DeleteText(content, name) == content
  {
    DeleteLinesNoMatch(Lines(content), name);
    JoinSplitOn(content, '\n');
    assert "\n" == ['\n'];
  }

  /** The kept lines are lines of the old file, in their old order. */
  lemma {:induction false} DeleteLinesSubsequence(lines: seq<string>, name: string, skip: bool)
    ensures IsSubsequence(DeleteLines(lines, name, skip), lines)
    decreases |lines|
  {
    if |lines| > 0 {
      var t := Strip(lines[0]);
      var skip' := if t == HeaderText(name) then true else if StartsWith(t, "user ") then false else skip;
      var rest := DeleteLines(lines[1..], name, skip');
      DeleteLinesSubsequence(lines[1..], name, skip');
      if t == HeaderText(name) || skip' {
        assert DeleteLines(lines, name, skip) == rest;
        SubsequenceSkip(rest, lines);
      } else {
        assert DeleteLines(lines, name, skip) == [lines[0]] + rest;
        assert ([lines[0]] + rest)[1..] == rest;
      }
    }
  }

  // ---- update_permissions: replace a user's topic lines ----

  /** The users, with every user named `name` given exactly `perms`. */
  function Replace(users: seq<AclUser>, name: string, perms: seq<Permission>): (r: seq<AclUser>)
    ensures |r| == |users|
    ensures forall i :: 0 <= i < |users| ==> r[i].name == users[i].name
    ensures forall i :: 0 <= i < |users| && users[i].name != name ==> r[i] == users[i]
    ensures forall i :: 0 <= i < |users| && users[i].name == name ==> r[i].perms == perms
  {
    if |users| == 0 then []
    else [if users[0].name == name then AclUser(name, perms) else users[0]] + Replace(users[1..], name, perms)
  }

  lemma {:induction false} ReplaceAppend(a: seq<AclUser>, b: seq<AclUser>, name: string, perms: seq<Permission>)
    ensures Replace(a + b, name, perms) == Replace(a, name, perms) + Replace(b, name, perms)
    decreases |a|
  {
    if |a| == 0 {
      assert a + b == b;
    } else {
      assert (a + b)[0] == a[0] && (a + b)[1..] == a[1..] + b;
      ReplaceAppend(a[1..], b, name, perms);
    }
  }

  /**
    The update loop over classified lines: a header naming `name` is kept and
    followed by `grants`, the old lines of its block are dropped up to the next
    header.
  */
  function UpdateKinds(ks: seq<LineKind>, name: string, grants: seq<LineKind>, skip: bool): seq<LineKind>
    decreases |ks|
  {
    if |ks| == 0 then []
    else if ks[0] == HeaderLine(name) then [ks[0]] + grants + UpdateKinds(ks[1..], name, grants, true)
    else
      var skip' := if ks[0].HeaderLine? then false else skip;
      (if skip' then [] else [ks[0]]) + UpdateKinds(ks[1..], name, grants, skip')
  }

  lemma UpdateKindsHead(ks: seq<LineKind>, name: string, grants: seq<LineKind>, skip: bool)
    requires |ks| > 0
    ensures ks[0] == HeaderLine(name) ==>
      UpdateKinds(ks, name, grants, skip) == [ks[0]] + (grants + UpdateKinds(ks[1..], name, grants, true))
    ensures ks[0] != HeaderLine(name) ==>
      var next := if ks[0].HeaderLine? then false else skip;
      UpdateKinds(ks, name, grants, skip) == (if next then [] else [ks[0]]) + UpdateKinds(ks[1..], name, grants, next)
  {
    if ks[0] == HeaderLine(name) {
      assert [ks[0]] + grants + UpdateKinds(ks[1..], name, grants, true)
          == [ks[0]] + (grants + UpdateKinds(ks[1..], name, grants, true));
    }
  }

  /** The new grants right after a header of `name` become that user's permissions. */
  lemma GrantsAfterHeader(perms: seq<Permission>, rest: seq<LineKind>, name: string, cur: Option<AclUser>)
    ensures ParseFrom([HeaderLine(name)] + (GrantKinds(perms) + rest), cur)
         == Flush(cur) + ParseFrom(rest, Some(AclUser(name, perms)))
  {
    HeaderStep(HeaderLine(name), GrantKinds(perms) + rest, cur);
    BodyGrantsCurrentUser(GrantKinds(perms), rest, AclUser(name, []));
    GrantKindsTopics(perms, []);
    assert GrantKinds(perms) + [] == GrantKinds(perms);
    assert AclUser(name, []).(perms := [] + perms) == AclUser(name, perms);
  }

  lemma FlushReplace(cur: Option<AclUser>, rest: seq<AclUser>, name: string, perms: seq<Permission>)
    requires NotNamed(cur, name)
    ensures Replace(Flush(cur) + rest, name, perms) == Flush(cur) + Replace(rest, name, perms)
  {
    ReplaceAppend(Flush(cur), rest, name, perms);
  }

  lemma ClosedReplace(u: AclUser, rest: seq<AclUser>, name: string, perms: seq<Permission>)
    requires u.name == name
    ensures Replace([u] + rest, name, perms) == [AclUser(name, perms)] + Replace(rest, name, perms)
  {
    ReplaceAppend([u], rest, name, perms);
  }

  /**
    Outside a replaced block, the update loop's output parses to the users of
    the original lines with `name`'s permissions replaced.
  */
  lemma {:induction false} UpdateKeeping(ks: seq<LineKind>, name: string, perms: seq<Permission>, cur: Option<AclUser>)
    requires NotNamed(cur, name)
    ensures ParseFrom(UpdateKinds(ks, name, GrantKinds(perms), false), cur) == Replace(ParseFrom(ks, cur), name, perms)
    decreases |ks|, 1
  {
    var g := GrantKinds(perms);
    if |ks| == 0 {
      FlushReplace(cur, [], name, perms);
    } else {
      UpdateKindsHead(ks, name, g, false);
      if ks[0] == HeaderLine(name) {
        var u := AclUser(name, []);
        assert ParseFrom(UpdateKinds(ks, name, g, false), cur)
            == Flush(cur) + ParseFrom(UpdateKinds(ks[1..], name, g, true), Some(AclUser(name, perms))) by {
          GrantsAfterHeader(perms, UpdateKinds(ks[1..], name, g, true), name, cur);
        }
        assert Replace(ParseFrom(ks, cur), name, perms) == Flush(cur) + Replace(ParseFrom(ks[1..], Some(u)), name, perms) by {
          assert ParseFrom(ks, cur) == Flush(cur) + ParseFrom(ks[1..], Some(u));
          FlushReplace(cur, ParseFrom(ks[1..], Some(u)), name, perms);
        }
        UpdateSkipping(ks[1..], name, perms, u);
      } else if ks[0].HeaderLine? {
        var u := AclUser(ks[0].name, []);
        assert ParseFrom(UpdateKinds(ks, name, g, false), cur)
            == Flush(cur) + ParseFrom(UpdateKinds(ks[1..], name, g, false), Some(u)) by {
          HeaderStep(ks[0], UpdateKinds(ks[1..], name, g, false), cur);
        }
        assert Replace(ParseFrom(ks, cur), name, perms) == Flush(cur) + Replace(ParseFrom(ks[1..], Some(u)), name, perms) by {
          assert ParseFrom(ks, cur) == Flush(cur) + ParseFrom(ks[1..], Some(u));
          FlushReplace(cur, ParseFrom(ks[1..], Some(u)), name, perms);
        }
        UpdateKeeping(ks[1..], name, perms, Some(u));
      } else {
        var next := Step(cur, ks[0]).1;
        assert ParseFrom(UpdateKinds(ks, name, g, false), cur) == ParseFrom(UpdateKinds(ks[1..], name, g, false), next) by {
          BodyStep(ks[0], UpdateKinds(ks[1..], name, g, false), cur);
        }
        assert ParseFrom(ks, cur) == ParseFrom(ks[1..], next);
        UpdateKeeping(ks[1..], name, perms, next);
      }
    }
  }

  /**
    Inside a replaced block of `name` (read in the original as `u`), the output
    reads the user with the new permissions while the old lines are dropped.
  */
  lemma {:induction false} UpdateSkipping(ks: seq<LineKind>, name: string, perms: seq<Permission>, u: AclUser)
    requires u.name == name
    ensures ParseFrom(UpdateKinds(ks, name, GrantKinds(perms), true), Some(AclUser(name, perms)))
         == Replace(ParseFrom(ks, Some(u)), name, perms)
    decreases |ks|, 1
  {
    var g := GrantKinds(perms);
    var w := AclUser(name, perms);
    if |ks| == 0 {
      ClosedReplace(u, [], name, perms);
    } else {
      UpdateKindsHead(ks, name, g, true);
      if ks[0] == HeaderLine(name) {
        ReplacedAtOwnHeader(ks, name, perms, u);
      } else if ks[0].HeaderLine? {
        ReplacedAtOtherHeader(ks, name, perms, u);
      } else {
        var u' := Step(Some(u), ks[0]).1.value;
        assert UpdateKinds(ks, name, g, true) == UpdateKinds(ks[1..], name, g, true);
        assert ParseFrom(ks, Some(u)) == ParseFrom(ks[1..], Some(u'));
        UpdateSkipping(ks[1..], name, perms, u');
      }
    }
  }

  /** A repeated header of the user gets the new permissions too. */
  lemma {:induction false} ReplacedAtOwnHeader(ks: seq<LineKind>, name: string, perms: seq<Permission>, u: AclUser)
    requires u.name == name && |ks| > 0 && ks[0] == HeaderLine(name)
    ensures ParseFrom(UpdateKinds(ks, name, GrantKinds(perms), true), Some(AclUser(name, perms)))
         == Replace(ParseFrom(ks, Some(u)), name, perms)
    decreases |ks|, 0
  {
    var g := GrantKinds(perms);
    var w := AclUser(name, perms);
    var u' := AclUser(name, []);
    assert ParseFrom(UpdateKinds(ks, name, g, true), Some(w))
        == [w] + ParseFrom(UpdateKinds(ks[1..], name, g, true), Some(w)) by {
      UpdateKindsHead(ks, name, g, true);
      GrantsAfterHeader(perms, UpdateKinds(ks[1..], name, g, true), name, Some(w));
    }
    assert Replace(ParseFrom(ks, Some(u)), name, perms) == [w] + Replace(ParseFrom(ks[1..], Some(u')), name, perms) by {
      assert ParseFrom(ks, Some(u)) == [u] + ParseFrom(ks[1..], Some(u'));
      ClosedReplace(u, ParseFrom(ks[1..], Some(u')), name, perms);
    }
    UpdateSkipping(ks[1..], name, perms, u');
  }

  /** Another user's header ends the replaced block and is kept. */
  lemma {:induction false} ReplacedAtOtherHeader(ks: seq<LineKind>, name: string, perms: seq<Permission>, u: AclUser)
    requires u.name == name && |ks| > 0 && ks[0].HeaderLine? && ks[0] != HeaderLine(name)
    ensures ParseFrom(UpdateKinds(ks, name, GrantKinds(perms), true), Some(AclUser(name, perms)))
         == Replace(ParseFrom(ks, Some(u)), name, perms)
    decreases |ks|, 0
  {
    var g := GrantKinds(perms);
    var w := AclUser(name, perms);
    var v := AclUser(ks[0].name, []);
    assert ParseFrom(UpdateKinds(ks, name, g, true), Some(w))
        == [w] + ParseFrom(UpdateKinds(ks[1..], name, g, false), Some(v)) by {
      UpdateKindsHead(ks, name, g, true);
      HeaderStep(ks[0], UpdateKinds(ks[1..], name, g, false), Some(w));
    }
    assert Replace(ParseFrom(ks, Some(u)), name, perms) == [w] + Replace(ParseFrom(ks[1..], Some(v)), name, perms) by {
      assert ParseFrom(ks, Some(u)) == [u] + ParseFrom(ks[1..], Some(v));
      ClosedReplace(u, ParseFrom(ks[1..], Some(v)), name, perms);
    }
    UpdateKeeping(ks[1..], name, perms, Some(v));
  }

  /** Some line of the file strips to `user <name>`: the loop's `user_found`. */
  predicate HasHeader(lines: seq<string>, name: string) {
    exists i :: 0 <= i < |lines| && Strip(lines[i]) == HeaderText(name)
  }

  /**
    `update_permissions`' loop: a line stripping to `user <name>` is kept and
    followed by `grants`; the old lines of that block are dropped up to the next
    `user ` header.
  */
  function UpdateLines(lines: seq<string>, name: string, grants: seq<string>, skip: bool): (r: seq<string>)
    decreases |lines|
  {
    if |lines| == 0 then []
    else
      var t := Strip(lines[0]);
      if t == HeaderText(name) then [lines[0]] + grants + UpdateLines(lines[1..], name, grants, true)
      else
        var skip' := if StartsWith(t, "user ") then false else skip;
        (if skip' then [] else [lines[0]]) + UpdateLines(lines[1..], name, grants, skip')
  }

  lemma UpdateLinesAtHeader(lines: seq<string>, name: string, grants: seq<string>, skip: bool)
    requires |lines| > 0 && Strip(lines[0]) == HeaderText(name)
    ensures UpdateLines(lines, name, grants, skip) == [lines[0]] + (grants + UpdateLines(lines[1..], name, grants, true))
  {
    var rest := UpdateLines(lines[1..], name, grants, true);
    assert [lines[0]] + grants + rest == [lines[0]] + (grants + rest);
  }

  lemma UpdateLinesElsewhere(lines: seq<string>, name: string, grants: seq<string>, skip: bool)
    requires IsWord(name) && |lines| > 0 && Classify(lines[0]) != HeaderLine(name)
    ensures var next := if Classify(lines[0]).HeaderLine? then false else skip;
      UpdateLines(lines, name, grants, skip)
        == (if next then [] else [lines[0]]) + UpdateLines(lines[1..], name, grants, next)
  {
    LineTests(lines[0], name);
  }

  /** The rewritten lines hold no newline when the old lines and the grants hold none. */
  lemma {:induction false} UpdateLinesNoNewline(lines: seq<string>, name: string, grants: seq<string>, skip: bool)
    requires forall l :: l in lines ==> '\n' !in l
    requires forall l :: l in grants ==> '\n' !in l
    ensures forall l :: l in UpdateLines(lines, name, grants, skip) ==> '\n' !in l
    decreases |lines|
  {
    if |lines| > 0 {
      var t := Strip(lines[0]);
      var next := if t == HeaderText(name) then true else if StartsWith(t, "user ") then false else skip;
      assert forall l :: l in lines[1..] ==> l in lines;
      UpdateLinesNoNewline(lines[1..], name, grants, next);
    }
  }

  lemma {:induction false} UpdateLinesKinds(lines: seq<string>, name: string, perms: seq<Permission>, skip: bool)
    requires IsWord(name) && Canonical(lines, name)
    requires forall i :: 0 <= i < |perms| ==> WellFormed(perms[i])
    ensures Kinds(UpdateLines(lines, name, PermLines(perms), skip))
         == UpdateKinds(Kinds(lines), name, GrantKinds(perms), skip)
    decreases |lines|
  {
    if |lines| > 0 {
      var k := Classify(lines[0]);
      CanonicalTail(lines, name);
      if k == HeaderLine(name) {
        UpdateLinesKinds(lines[1..], name, perms, true);
        PermLinesClassified(perms);
        UpdatedAtHeader(lines, name, PermLines(perms), GrantKinds(perms), skip);
      } else {
        var next := if k.HeaderLine? then false else skip;
        UpdateLinesKinds(lines[1..], name, perms, next);
        UpdatedElsewhere(lines, name, PermLines(perms), GrantKinds(perms), skip);
      }
    }
  }

  lemma UpdatedAtHeader(lines: seq<string>, name: string, gl: seq<string>, g: seq<LineKind>, skip: bool)
    requires IsWord(name) && |lines| > 0 && Classify(lines[0]) == HeaderLine(name)
    requires Strip(lines[0]) == HeaderText(name)
    requires Kinds(gl) == g
    requires Kinds(UpdateLines(lines[1..], name, gl, true)) == UpdateKinds(Kinds(lines[1..]), name, g, true)
    ensures Kinds(UpdateLines(lines, name, gl, skip)) == UpdateKinds(Kinds(lines), name, g, skip)
  {
    var rest := UpdateLines(lines[1..], name, gl, true);
    UpdateLinesAtHeader(lines, name, gl, skip);
    assert UpdateKinds(Kinds(lines), name, g, skip) == [HeaderLine(name)] + (g + UpdateKinds(Kinds(lines[1..]), name, g, true)) by {
      KindsHead(lines);
      UpdateKindsHead(Kinds(lines), name, g, skip);
    }
    KindsCons(lines[0], gl, rest);
  }

  lemma UpdatedElsewhere(lines: seq<string>, name: string, gl: seq<string>, g: seq<LineKind>, skip: bool)
    requires IsWord(name) && |lines| > 0 && Classify(lines[0]) != HeaderLine(name)
    requires var next := if Classify(lines[0]).HeaderLine? then false else skip;
      Kinds(UpdateLines(lines[1..], name, gl, next)) == UpdateKinds(Kinds(lines[1..]), name, g, next)
    ensures Kinds(UpdateLines(lines, name, gl, skip)) == UpdateKinds(Kinds(lines), name, g, skip)
  {
    var k := Classify(lines[0]);
    var next := if k.HeaderLine? then false else skip;
    var keep: seq<string> := if next then [] else [lines[0]];
    var rest := UpdateLines(lines[1..], name, gl, next);
    UpdateLinesElsewhere(lines, name, gl, skip);
    assert UpdateKinds(Kinds(lines), name, g, skip)
        == (if next then [] else [k]) + UpdateKinds(Kinds(lines[1..]), name, g, next) by {
      KindsHead(lines);
      UpdateKindsHead(Kinds(lines), name, g, skip);
    }
    KindsAppend(keep, rest);
    KindsMaybe(lines[0], next);
  }

  /** The new file text of an update: the rewritten lines joined with newlines. */
  function UpdateText(content: string, name: string, perms: seq<Permission>): string {
    Join(UpdateLines(Lines(content), name, PermLines(perms), false), "\n")
  }

  /**
    For a single-word name whose headers are all written canonically and
    well-formed permissions, the rewritten file parses to the old users with
    every user of that name holding exactly the new permissions, and nobody
    else changed.
  */
  lemma UpdateTextParses(content: string, name: string, perms: seq<Permission>)
    requires IsWord(name) && Canonical(Lines(content), name)
    requires forall i :: 0 <= i < |perms| ==> WellFormed(perms[i])
    ensures Users(UpdateText(content, name, perms)) == Replace(Users(content), name, perms)
  {
    var lines := Lines(content);
    var out := UpdateLines(lines, name, PermLines(perms), false);
    assert forall l :: l in PermLines(perms) ==> '\n' !in l by {
      PermLinesClassified(perms);
    }
    UpdateLinesNoNewline(lines, name, PermLines(perms), false);
    JoinedLinesParse(out);
    UpdateLinesKinds(lines, name, perms, false);
    UpdateKeeping(Kinds(lines), name, perms, None);
  }

  // ---- The endpoints ----

  /** What `sudo cat` finds at the ACL path. */
  datatype AclFile = Missing | Unreadable | Contents(text: string)

  /** The outcome of the `mosquitto_passwd -b` call of `create_user`, whose error output is captured. */
  datatype Tool = ToolOk | ToolFailed(stderr: string)

  /**
    The permission list of a request, as the loops that format it see it:
    a list of objects whose `access` and `topic` are strings. An empty string or
    empty object iterates as no permissions; any other value, or an entry
    without both keys, raises inside the handler.
  */
  function DecodePerms(j: Json.Json): (r: Option<seq<Permission>>)
    ensures j.JArr? ==> (r.Some? <==> forall i :: 0 <= i < |j.items| ==> DecodePerm(j.items[i]).Some?)
    ensures j.JArr? && r.Some? ==> |r.value| == |j.items|
    ensures !j.JArr? ==> (r.Some? <==> !Json.Truthy(j) && (j.JStr? || j.JObj?)) && (r.Some? ==> r.value == [])
  {
    match j
    case JArr(items) => DecodeAll(items)
    case JStr(s) => if s == [] then Some([]) else None
    case JObj(m) => if |m| == 0 then Some([]) else None
    case _ => None
  }

  function DecodePerm(j: Json.Json): (r: Option<Permission>)
    ensures r.Some? <==> j.JObj? && "access" in j.fields && "topic" in j.fields
                         && j.fields["access"].JStr? && j.fields["topic"].JStr?
    ensures r.Some? ==> r.value == Permission(j.fields["access"].s, j.fields["topic"].s)
  {
    if j.JObj? && "access" in j.fields && "topic" in j.fields
       && j.fields["access"].JStr? && j.fields["topic"].JStr?
    then Some(Permission(j.fields["access"].s, j.fields["topic"].s))
    else None
  }

  function DecodeAll(items: seq<Json.Json>): (r: Option<seq<Permission>>)
    ensures r.Some? <==> forall i :: 0 <= i < |items| ==> DecodePerm(items[i]).Some?
    ensures r.Some? ==> |r.value| == |items| && forall i :: 0 <= i < |items| ==> r.value[i] == DecodePerm(items[i]).value
    decreases |items|
  {
    if |items| == 0 then Some([])
    else
      var rest := DecodeAll(items[1..]);
      if DecodePerm(items[0]).None? || rest.None? then
        assert rest.None? ==> exists i :: 0 <= i < |items| && DecodePerm(items[i]).None? by {
          if rest.None? {
            var i :| 0 <= i < |items[1..]| && DecodePerm(items[1..][i]).None?;
            assert items[1..][i] == items[i + 1];
          }
        }
        None
      else Some([DecodePerm(items[0]).value] + rest.value)
  }

  /** A truthy permission value that decodes holds at least one permission. */
  lemma DecodedNonEmpty(j: Json.Json)
    requires Json.Truthy(j) && DecodePerms(j).Some?
    ensures |DecodePerms(j).value| > 0
  {
  }

  /** `GET /users`: a missing file has no users; an unreadable one is a server error. */
  function GetUsers(acl: AclFile): (r: Http.Outcome<seq<AclUser>>)
    ensures acl.Missing? ==> r == Http.Success(200, [])
    ensures acl.Unreadable? ==> r == Http.Failure(500, "Error reading ACL file")
    ensures acl.Contents? ==> r.Success? && r.code == 200 && Names(r.value) == HeaderNames(Kinds(Lines(acl.text)))
  {
    match acl
    case Missing => Http.Success(200, [])
    case Unreadable => Http.Failure(500, "Error reading ACL file")
    case Contents(t) =>
      UsersNamedByHeaders(t);
      Http.Success(200, Users(t))
  }

  /** The text `sudo cat` yields to `create_user`: the file, or nothing when it cannot be read. */
  function CurrentAcl(acl: AclFile): string {
    if acl.Contents? then acl.text else ""
  }

  /** A request body with a truthy username and password: it gets past the 400 check. */
  predicate CredentialsGiven(body: Option<Json.Object>) {
    !Json.Blank(body) && Json.Truthy(Json.Get(body.value, "username")) && Json.Truthy(Json.Get(body.value, "password"))
  }

  /** Both credentials are strings, as the password tool's argument list needs. */
  predicate TextCredentials(d: Json.Object) {
    Json.Get(d, "username").JStr? && Json.Get(d, "password").JStr?
  }

  /** The permissions of a request, an empty list when absent. */
  function RequestedPerms(d: Json.Object): Json.Json {
    Json.GetOr(d, "permissions", Json.JArr([]))
  }

  /**
    `POST /users`. The value of a success is the ACL text written, if any: with
    no (or empty) permissions the ACL is not touched.
  */
  function CreateUser(body: Option<Json.Object>, passwd: Tool, acl: AclFile): (r: Http.Outcome<Option<string>>)
    ensures r.Failure? && r.code == 400 <==>
      Json.Blank(body) || !Json.Truthy(Json.Get(body.value, "username")) || !Json.Truthy(Json.Get(body.value, "password"))
    ensures CredentialsGiven(body) && !TextCredentials(body.value) ==> r.Failure? && r.code == 500
    ensures CredentialsGiven(body) && TextCredentials(body.value) && passwd.ToolFailed? ==>
      r == Http.Failure(500, "Error creating user: " + passwd.stderr)
    ensures CredentialsGiven(body) && TextCredentials(body.value) && passwd.ToolOk? ==>
      (r == Http.Success(201, None) <==> !Json.Truthy(RequestedPerms(body.value)))
      && (Json.Truthy(RequestedPerms(body.value)) ==> (r.Failure? <==> DecodePerms(RequestedPerms(body.value)).None?))
    ensures r.Success? ==> r.code == 201 && body.Some? && Json.Get(body.value, "username").JStr?
    ensures r.Success? && r.value.Some? ==>
      var perms := DecodePerms(Json.GetOr(body.value, "permissions", Json.JArr([])));
      perms.Some? && |perms.value| > 0 &&
      r.value.value == AppendUser(CurrentAcl(acl), Json.Get(body.value, "username").s, perms.value)
    ensures r.Failure? && r.code != 400 ==> r.code == 500
  {
    if !CredentialsGiven(body) then
      Http.Failure(400, "Username and password required")
    else
      var data := body.value;
      var username := Json.Get(data, "username");
      var permissions := RequestedPerms(data);
      if !TextCredentials(data) then
        Http.Failure(500, "Error creating user: expected a string argument")
      else if passwd.ToolFailed? then
        Http.Failure(500, "Error creating user: " + passwd.stderr)
      else if !Json.Truthy(permissions) then
        Http.Success(201, None)
      else
        match DecodePerms(permissions)
        case None => Http.Failure(500, "Error creating user: malformed permission")
        case Some(perms) =>
          DecodedNonEmpty(permissions);
          Http.Success(201, Some(AppendUser(CurrentAcl(acl), username.s, perms)))
  }

  /**
    A `subprocess.run(..., check=True)` call: it completes, or raises an
    exception whose text is `error`. For a non-zero exit that text is
    `Command '[...]' returned non-zero exit status N.`; nothing of the tool's
    own output is captured.
  */
  datatype Run = Completed | Raised(error: string)

  /** `DELETE /users/<name>`. The value of a success is the ACL text written, if any. */
  function DeleteUser(name: string, passwd: Run, acl: AclFile): (r: Http.Outcome<Option<string>>)
    ensures r.Success? <==> passwd.Completed?
    ensures r.Success? ==> r.code == 200 && (r.value.Some? <==> acl.Contents?)
    ensures r.Success? && acl.Contents? ==> r.value.value == DeleteText(acl.text, name)
    ensures r.Failure? ==> r.code == 500
    ensures passwd.Raised? ==> r == Http.Failure(500, "Error deleting user: " + passwd.error)
  {
    if passwd.Raised? then Http.Failure(500, "Error deleting user: " + passwd.error)
    else if acl.Contents? then Http.Success(200, Some(DeleteText(acl.text, name)))
    else Http.Success(200, None)
  }

  /** `PUT /users/<name>/permissions`. The value of a success is the ACL text written. */
  function UpdatePermissions(name: string, body: Option<Json.Object>, acl: AclFile): (r: Http.Outcome<string>)
    ensures r.Failure? && r.code == 400 <==> Json.Blank(body) || "permissions" !in body.value
    ensures !Json.Blank(body) && "permissions" in body.value && !acl.Contents? ==> r == Http.Failure(500, "Error reading ACL file")
    ensures r.Failure? && r.code == 404 <==>
      !Json.Blank(body) && "permissions" in body.value && acl.Contents? && !HasHeader(Lines(acl.text), name)
    ensures r.Success? ==>
      r.code == 200 && acl.Contents? && HasHeader(Lines(acl.text), name)
      && DecodePerms(body.value["permissions"]).Some?
      && r.value == UpdateText(acl.text, name, DecodePerms(body.value["permissions"]).value)
    ensures !Json.Blank(body) && "permissions" in body.value && acl.Contents? && HasHeader(Lines(acl.text), name) ==>
      (r.Success? <==> DecodePerms(body.value["permissions"]).Some?)
      && (r.Failure? ==> r.code == 500)
  {
    if Json.Blank(body) || "permissions" !in body.value then Http.Failure(400, "Permissions required")
    else if !acl.Contents? then Http.Failure(500, "Error reading ACL file")
    else if !HasHeader(Lines(acl.text), name) then Http.Failure(404, "User " + name + " not found in ACL")
    else
      match DecodePerms(body.value["permissions"])
      case None => Http.Failure(500, "Error updating permissions: malformed permission")
      case Some(perms) => Http.Success(200, UpdateText(acl.text, name, perms))
  }

  /**
    A user created with well-formed permissions is read back by `GET /users`
    after every user that was there before.
  */
  lemma CreatedUserListed(body: Option<Json.Object>, acl: AclFile, written: string)
    requires CreateUser(body, ToolOk, acl) == Http.Success(201, Some(written))
    requires IsWord(Json.Get(body.value, "username").s)
    requires var perms := DecodePerms(Json.GetOr(body.value, "permissions", Json.JArr([])));
      perms.Some? && forall i :: 0 <= i < |perms.value| ==> WellFormed(perms.value[i])
    ensures GetUsers(Contents(written)).value
         == Users(CurrentAcl(acl)) + [AclUser(Json.Get(body.value, "username").s,
                                              DecodePerms(Json.GetOr(body.value, "permissions", Json.JArr([]))).value)]
  {
    var perms := DecodePerms(Json.GetOr(body.value, "permissions", Json.JArr([]))).value;
    AppendUserParses(CurrentAcl(acl), Json.Get(body.value, "username").s, perms);
  }

  /**
    When the ACL cannot be read, `create_user` starts from an empty text: the
    file written holds the new user alone, and every user listed before is gone.
  */
  lemma CreateOverUnreadableAcl(name: string, perms: seq<Permission>)
    requires IsWord(name)
    requires forall i :: 0 <= i < |perms| ==> WellFormed(perms[i])
    ensures Users(AppendUser(CurrentAcl(Unreadable), name, perms)) == [AclUser(name, perms)]
  {
    var empty := CurrentAcl(Unreadable);
    assert Users(empty) == [] by {
      EmptyFileNoUsers();
    }
    AppendToNoUsers(empty, name, perms);
  }

  lemma AppendToNoUsers(current: string, name: string, perms: seq<Permission>)
    requires IsWord(name) && Users(current) == []
    requires forall i :: 0 <= i < |perms| ==> WellFormed(perms[i])
    ensures Users(AppendUser(current, name, perms)) == [AclUser(name, perms)]
  {
    AppendUserParses(current, name, perms);
    assert [] + [AclUser(name, perms)] == [AclUser(name, perms)];
  }

  lemma EmptyFileNoUsers()
    ensures Users("") == []
  {
    var none: seq<string> := [];
    JoinedLinesParse(none);
    assert Join(none, "\n") == "";
    assert Kinds(none) == [];
  }

  /** After a delete, `GET /users` lists the remaining users as they were. */
  lemma DeletedUserGone(name: string, acl: AclFile, written: string)
    requires DeleteUser(name, Completed, acl) == Http.Success(200, Some(written))
    requires IsWord(name) && Canonical(Lines(acl.text), name)
    ensures GetUsers(Contents(written)).value == Without(GetUsers(acl).value, name)
    ensures forall u :: u in GetUsers(Contents(written)).value ==> u.name != name
  {
    DeleteTextParses(acl.text, name);
  }

  /** After an update, `GET /users` lists every user of that name with the new permissions and nobody else changed. */
  lemma UpdatedUserListed(name: string, body: Option<Json.Object>, acl: AclFile, written: string)
    requires UpdatePermissions(name, body, acl) == Http.Success(200, written)
    requires IsWord(name) && Canonical(Lines(acl.text), name)
    requires var perms := DecodePerms(body.value["permissions"]);
      perms.Some? && forall i :: 0 <= i < |perms.value| ==> WellFormed(perms.value[i])
    ensures GetUsers(Contents(written)).value
         == Replace(GetUsers(acl).value, name, DecodePerms(body.value["permissions"]).value)
  {
    UpdateTextParses(acl.text, name, DecodePerms(body.value["permissions"]).value);
  }

  /**
    A permission whose topic was left empty is written as `topic <access> ` and
    read back as nothing: the line has only two words.
  */
  lemma EmptyTopicDropped(access: string)
    requires IsWord(access)
    ensures Classify(PermText(Permission(access, ""))) == OtherLine
  {
    var u := "topic" + " " + access;
    assert PermText(Permission(access, "")) == u + " ";
    assert !StartsWith(u, "user ") && StartsWith(u, "topic ") && !IsSpace(u[0]) by { assert u[0] == 't'; }
    StripTrailingSpace(u);
    KeywordsAreWords();
    SplitWsTwo("topic", access);
    TopicTooShort(u);
  }

  lemma TopicTooShort(t: string)
    requires !StartsWith(t, "user ") && |SplitWs(t)| < 3
    requires t == [] || !IsSpace(t[|t| - 1])
    ensures ClassifyStripped(t) == OtherLine
  {
  }

}
