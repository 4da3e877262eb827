/** Conversations as connected components of the reference graph, ghosts included. */
module EmailThreading {
  import opened StringOrder
  import opened UnionFind
  import opened Wrappers

  datatype Result<+T> = Ok(value: T) | Invalid | NotFound

  datatype Message = Message(id: string, from: string, subject: string, receivedAt: int, inReplyTo: Option<string>,
                             references: seq<string>)

  datatype Thread = Thread(id: string, subject: string, messageIds: seq<string>, participants: seq<string>,
                           updatedAt: int)

  type Messages = map<string, Message>

  type Links = set<(string, string)>

  /** The usable ids of a list, each once, in order. */
  function Collect(ids: seq<string>, own: string): (r: seq<string>)
    ensures forall x :: x in r <==> x in ids && x != "" && x != own
  {
    if ids == [] then [] else
      var n := |ids| - 1;
      assert ids == ids[..n] + [ids[n]];
      var before := Collect(ids[..n], own);
      if ids[n] != "" && ids[n] != own && ids[n] !in before then before + [ids[n]] else before
  }

  /** Every ancestor a message claims: `References`, then `In-Reply-To`. */
  function ParentIds(m: Message): seq<string> {
    Collect(m.references + (if m.inReplyTo.Some? then [m.inReplyTo.value] else []), m.id)
  }

  /** Who refers to whom. */
  ghost function LinksOf(messages: Messages): Links {
    set id, p | id in messages && p in ParentIds(messages[id]) :: (id, p)
  }

  // ---------------------------------------------------------------- connected components

  ghost predicate Closed(links: Links, s: set<string>) {
    forall l :: l in links ==> (l.0 in s <==> l.1 in s)
  }

  /** No set that keeps linked ids together tells the two apart. */
  ghost predicate Connected(links: Links, x: string, y: string) {
    forall s :: Closed(links, s) ==> (x in s <==> y in s)
  }

  ghost predicate Step(links: Links, x: string, y: string) {
    (x, y) in links || (y, x) in links
  }

  ghost predicate IsPath(links: Links, p: seq<string>, x: string, y: string) {
    p != [] && p[0] == x && p[|p| - 1] == y && forall i :: 0 <= i < |p| - 1 ==> Step(links, p[i], p[i + 1])
  }

  lemma {:induction false} PathConnects(links: Links, p: seq<string>, x: string, y: string)
    requires IsPath(links, p, x, y)
    ensures Connected(links, x, y)
    decreases |p|
  {
    if |p| > 1 {
      var n := |p| - 1;
      assert Step(links, p[n - 1], p[n - 1 + 1]);
      PathConnects(links, p[..n], x, p[n - 1]);
      forall s | Closed(links, s) ensures x in s <==> y in s {
        assert x in s <==> p[n - 1] in s;
        if (p[n - 1], y) in links {
          assert (p[n - 1], y).0 in s <==> (p[n - 1], y).1 in s;
        } else {
          assert (y, p[n - 1]).0 in s <==> (y, p[n - 1]).1 in s;
        }
      }
    }
  }

  ghost function Ends(links: Links): set<string> {
    (set l | l in links :: l.0) + (set l | l in links :: l.1)
  }

  ghost function Reach(links: Links, x: string): set<string> {
    set z | z in Ends(links) + {x} && exists p :: IsPath(links, p, x, z)
  }

  lemma ReachIsClosed(links: Links, x: string)
    ensures Closed(links, Reach(links, x)) && x in Reach(links, x)
  {
    assert IsPath(links, [x], x, x);
    forall l | l in links ensures l.0 in Reach(links, x) <==> l.1 in Reach(links, x) {
      assert l == (l.0, l.1) && l.0 in Ends(links) && l.1 in Ends(links);
      if p :| IsPath(links, p, x, l.0) {
        Extend(links, p, x, l.0, l.1);
      }
      if p :| IsPath(links, p, x, l.1) {
        Extend(links, p, x, l.1, l.0);
      }
    }
  }

  lemma Extend(links: Links, p: seq<string>, x: string, y: string, z: string)
    requires IsPath(links, p, x, y) && Step(links, y, z)
    ensures IsPath(links, p + [z], x, z)
  {
    var q := p + [z];
    forall i | 0 <= i < |q| - 1 ensures Step(links, q[i], q[i + 1]) {
      if i < |p| - 1 {
        assert Step(links, p[i], p[i + 1]);
      }
    }
  }

  /** Being connected is being joined by a chain of references, followed in either direction. */
  lemma ConnectedIffPath(links: Links, x: string, y: string)
    ensures Connected(links, x, y) <==> exists p :: IsPath(links, p, x, y)
  {
    if p :| IsPath(links, p, x, y) {
      PathConnects(links, p, x, y);
    }
    if Connected(links, x, y) {
      ReachIsClosed(links, x);
      assert y in Reach(links, x);
    }
  }

  /** The union-find's sets are the components of these links: linked ids share a root, and ids that
      share a root are connected. */
  ghost predicate Matches(root: map<string, string>, links: Links) {
    && (forall l :: l in links ==> l.0 in root && l.1 in root && root[l.0] == root[l.1])
    && (forall s :: Closed(links, s) ==> Respects(root, s))
  }

  /** The set does not split the sets of the union-find. */
  ghost predicate Respects(root: map<string, string>, s: set<string>) {
    forall x, y :: x in root && y in root && root[x] == root[y] ==> (x in s <==> y in s)
  }

  lemma SameRootIffConnected(root: map<string, string>, links: Links, x: string, y: string)
    requires Matches(root, links) && x in root && y in root
    ensures root[x] == root[y] <==> Connected(links, x, y)
  {
    if Connected(links, x, y) {
      var s := set z | z in root && root[z] == root[x];
      assert Closed(links, s);
      assert x in s;
    }
    if root[x] == root[y] {
      forall s | Closed(links, s) ensures x in s <==> y in s {
        assert Respects(root, s);
      }
    }
  }

  /** Every root is a known id. */
  ghost predicate RootsKnown(root: map<string, string>) {
    forall k {:trigger root[k]} :: k in root ==> root[k] in root
  }

  lemma MatchesGrown(root: map<string, string>, links: Links, x: string)
    requires Matches(root, links) && x !in root && RootsKnown(root)
    ensures Matches(root[x := x], links) && RootsKnown(root[x := x])
  {
    forall s | Closed(links, s) ensures Respects(root[x := x], s) {
      assert Respects(root, s);
    }
  }

  /** One union along one more link. */
  lemma MatchesJoined(root: map<string, string>, links: Links, id: string, left: string, right: string, r: string)
    requires Matches(root, links) && id in root && left in root && root[id] == root[left] && RootsKnown(root)
    requires var g := Grown(root, left, right); r == g[left] || r == g[right]
    ensures var g := Grown(root, left, right);
            Matches(Joined(g, left, right, r), links + {(id, right)}) && RootsKnown(Joined(g, left, right, r))
  {
    hide *;
    var g := Grown(root, left, right);
    GrownMatches(root, links, id, left, right);
    MatchesAfterJoin(g, links, id, left, right, r);
  }

  lemma GrownMatches(root: map<string, string>, links: Links, id: string, left: string, right: string)
    requires Matches(root, links) && id in root && left in root && root[id] == root[left] && RootsKnown(root)
    ensures var g := Grown(root, left, right);
            Matches(g, links) && RootsKnown(g) && id in g && left in g && right in g && g[id] == g[left]
  {
    if right !in root {
      MatchesGrown(root, links, right);
    }
  }

  lemma MatchesAfterJoin(g: map<string, string>, links: Links, id: string, left: string, right: string, r: string)
    requires Matches(g, links) && RootsKnown(g) && id in g && left in g && right in g && g[id] == g[left]
    requires r == g[left] || r == g[right]
    ensures Matches(Joined(g, left, right, r), links + {(id, right)}) && RootsKnown(Joined(g, left, right, r))
  {
    hide Respects, Closed;
    var j := Joined(g, left, right, r);
    var more := links + {(id, right)};
    forall s | Closed(more, s) ensures Respects(j, s) {
      ClosedParts(links, id, right, s);
      assert Respects(g, s);
      JoinRespects(g, id, left, right, r, s);
    }
  }

  lemma ClosedParts(links: Links, a: string, b: string, s: set<string>)
    requires Closed(links + {(a, b)}, s)
    ensures Closed(links, s) && (a in s <==> b in s)
  {
    assert (a, b) in links + {(a, b)};
  }

  lemma JoinRespects(g: map<string, string>, id: string, left: string, right: string, r: string, s: set<string>)
    requires id in g && left in g && right in g && g[id] == g[left] && (r == g[left] || r == g[right]) && RootsKnown(g)
    requires Respects(g, s) && (id in s <==> right in s)
    ensures Respects(Joined(g, left, right, r), s)
  {
    var j := Joined(g, left, right, r);
    assert id in s <==> left in s;
    forall x, y | x in j && y in j && j[x] == j[y] ensures x in s <==> y in s {
      assert j[x] == r <==> g[x] == g[left] || g[x] == g[right];
      assert j[y] == r <==> g[y] == g[left] || g[y] == g[right];
    }
  }

  // ---------------------------------------------------------------- threads as the mailbox shows them

  /** Oldest first, ids breaking ties. */
  predicate Older(a: Message, b: Message) {
    a.receivedAt < b.receivedAt || (a.receivedAt == b.receivedAt && StrLess(a.id, b.id))
  }

  /** Newest activity first, thread ids breaking ties. */
  predicate Newer(a: Thread, b: Thread) {
    a.updatedAt > b.updatedAt || (a.updatedAt == b.updatedAt && StrLess(a.id, b.id))
  }

  ghost predicate InOrder(known: seq<Message>) {
    forall i, j :: 0 <= i < j < |known| ==> Older(known[i], known[j])
  }

  ghost predicate Ranked(list: seq<Thread>) {
    forall i, j :: 0 <= i < j < |list| ==> Newer(list[i], list[j])
  }

  /** `tuple(dict.fromkeys(...))`. */
  function Once(names: seq<string>): (r: seq<string>)
    ensures forall x :: x in r <==> x in names
  {
    if names == [] then [] else
      var n := |names| - 1;
      assert names == names[..n] + [names[n]];
      var before := Once(names[..n]);
      if names[n] in before then before else before + [names[n]]
  }

  function Build(known: seq<Message>): Thread
    requires known != []
  {
    Thread(known[0].id, known[0].subject,
           seq(|known|, i requires 0 <= i < |known| => known[i].id),
           Once(seq(|known|, i requires 0 <= i < |known| => known[i].from)),
           known[|known| - 1].receivedAt)
  }

  /** The delivered messages of one conversation, oldest first. */
  ghost predicate IsConversation(messages: Messages, links: Links, id: string, known: seq<Message>) {
    && InOrder(known)
    && forall m :: m in known <==> m.id in messages && messages[m.id] == m && Connected(links, m.id, id)
  }

  ghost predicate IsThreadOf(messages: Messages, links: Links, id: string, t: Thread) {
    exists known :: known != [] && IsConversation(messages, links, id, known) && t == Build(known)
  }

  /** The whole mailbox: one thread for every conversation, most recently active first. */
  ghost predicate IsMailbox(messages: Messages, links: Links, list: seq<Thread>) {
    && Ranked(list)
    && forall t :: t in list <==> exists id :: id in messages && IsThreadOf(messages, links, id, t)
  }

  lemma OlderIsStrict(a: Message, b: Message)
    ensures !(Older(a, b) && Older(b, a)) && !Older(a, a)
    ensures a.id != b.id ==> Older(a, b) || Older(b, a)
  {
    Irreflexive(a.id);
    Total(a.id, b.id);
    if StrLess(a.id, b.id) && StrLess(b.id, a.id) {
      Transitive(a.id, b.id, a.id);
    }
  }

  lemma OlderIsTransitive(a: Message, b: Message, c: Message)
    requires Older(a, b) && Older(b, c)
    ensures Older(a, c)
  {
    if a.receivedAt == b.receivedAt == c.receivedAt {
      Transitive(a.id, b.id, c.id);
    }
  }

  lemma NewerIsStrict(a: Thread, b: Thread)
    ensures !(Newer(a, b) && Newer(b, a)) && !Newer(a, a)
    ensures a.id != b.id ==> Newer(a, b) || Newer(b, a)
  {
    Irreflexive(a.id);
    Total(a.id, b.id);
    if StrLess(a.id, b.id) && StrLess(b.id, a.id) {
      Transitive(a.id, b.id, a.id);
    }
  }

  lemma NewerIsTransitive(a: Thread, b: Thread, c: Thread)
    requires Newer(a, b) && Newer(b, c)
    ensures Newer(a, c)
  {
    if a.updatedAt == b.updatedAt == c.updatedAt {
      Transitive(a.id, b.id, c.id);
    }
  }

  lemma SameMessages(a: seq<Message>, b: seq<Message>)
    requires forall m :: m in a <==> m in b
    ensures a == [] <==> b == []
  {
    assert a != [] ==> a[0] in a;
    assert b != [] ==> b[0] in b;
  }

  lemma SameThreads(a: seq<Thread>, b: seq<Thread>)
    requires forall t :: t in a <==> t in b
    ensures a == [] <==> b == []
  {
    assert a != [] ==> a[0] in a;
    assert b != [] ==> b[0] in b;
  }

  /** One order, one sequence. */
  lemma {:induction false} ConversationIsUnique(a: seq<Message>, b: seq<Message>)
    requires InOrder(a) && InOrder(b) && forall m :: m in a <==> m in b
    ensures a == b
    decreases |a|
  {
    hide Older;
    SameMessages(a, b);
    if a != [] {
      assert a[0] in b && b[0] in a;
      var i :| 0 <= i < |b| && b[i] == a[0];
      var j :| 0 <= j < |a| && a[j] == b[0];
      OlderIsStrict(a[0], b[0]);
      assert a[0] == b[0];
      forall m ensures m in a[1..] <==> m in b[1..] {
        TailMessages(a, m);
        TailMessages(b, m);
      }
      ConversationIsUnique(a[1..], b[1..]);
      assert a == [a[0]] + a[1..] && b == [b[0]] + b[1..];
    }
  }

  lemma TailMessages(a: seq<Message>, m: Message)
    requires InOrder(a) && a != []
    ensures m in a[1..] <==> m in a && m != a[0]
  {
    hide Older;
    if m in a && m != a[0] {
      var i :| 0 <= i < |a| && a[i] == m;
      assert a[1..][i - 1] == m;
    }
    if m in a[1..] {
      var i :| 0 <= i < |a| - 1 && a[1..][i] == m;
      assert a[i + 1] == m;
      OlderIsStrict(m, m);
    }
  }

  lemma TailThreads(a: seq<Thread>, t: Thread)
    requires Ranked(a) && a != []
    ensures t in a[1..] <==> t in a && t != a[0]
  {
    hide Newer;
    if t in a && t != a[0] {
      var i :| 0 <= i < |a| && a[i] == t;
      assert a[1..][i - 1] == t;
    }
    if t in a[1..] {
      var i :| 0 <= i < |a| - 1 && a[1..][i] == t;
      assert a[i + 1] == t;
      NewerIsStrict(t, t);
    }
  }

  lemma {:induction false} RankingIsUnique(a: seq<Thread>, b: seq<Thread>)
    requires Ranked(a) && Ranked(b) && forall t :: t in a <==> t in b
    ensures a == b
    decreases |a|
  {
    hide Newer;
    SameThreads(a, b);
    if a != [] {
      assert a[0] in b && b[0] in a;
      var i :| 0 <= i < |b| && b[i] == a[0];
      var j :| 0 <= j < |a| && a[j] == b[0];
      NewerIsStrict(a[0], b[0]);
      assert a[0] == b[0];
      forall t ensures t in a[1..] <==> t in b[1..] {
        TailThreads(a, t);
        TailThreads(b, t);
      }
      RankingIsUnique(a[1..], b[1..]);
      assert a == [a[0]] + a[1..] && b == [b[0]] + b[1..];
    }
  }

  /** The delivered messages leave no choice about the list. */
  lemma MailboxIsUnique(messages: Messages, links: Links, a: seq<Thread>, b: seq<Thread>)
    requires IsMailbox(messages, links, a) && IsMailbox(messages, links, b)
    ensures a == b
  {
    hide IsThreadOf, Newer;
    assert forall t :: t in a <==> t in b;
    RankingIsUnique(a, b);
  }

  lemma ThreadIsUnique(messages: Messages, links: Links, id: string, t: Thread, u: Thread)
    requires IsThreadOf(messages, links, id, t) && IsThreadOf(messages, links, id, u)
    ensures t == u
  {
    var a :| a != [] && IsConversation(messages, links, id, a) && t == Build(a);
    var b :| b != [] && IsConversation(messages, links, id, b) && u == Build(b);
    hide Older, Connected;
    assert forall m :: m in a <==> m in b;
    ConversationIsUnique(a, b);
  }

  // ---------------------------------------------------------------- sorting

  method SortMessages(ms: set<Message>) returns (known: seq<Message>)
    requires forall a, b :: a in ms && b in ms && a != b ==> a.id != b.id
    ensures InOrder(known) && forall m :: m in known <==> m in ms
  {
    hide Older;
    known := [];
    var rest := ms;
    while rest != {}
      invariant rest <= ms && InOrder(known) && forall m :: m in known <==> m in ms && m !in rest
      decreases |rest|
    {
      var m :| m in rest;
      rest := rest - {m};
      var at := 0;
      while at < |known| && Older(known[at], m)
        invariant at <= |known| && forall i :: 0 <= i < at ==> Older(known[i], m)
      {
        at := at + 1;
      }
      InsertMessage(known, at, m);
      known := known[..at] + [m] + known[at..];
    }
  }

  lemma InsertMessage(known: seq<Message>, at: nat, m: Message)
    requires InOrder(known) && at <= |known| && (forall i :: 0 <= i < at ==> Older(known[i], m))
    requires (at < |known| ==> !Older(known[at], m)) && forall k :: k in known ==> k.id != m.id
    ensures InOrder(known[..at] + [m] + known[at..])
    ensures forall k :: k in known[..at] + [m] + known[at..] <==> k in known || k == m
  {
    hide Older;
    forall i | at <= i < |known| ensures Older(m, known[i]) {
      assert known[at] in known;
      OlderIsStrict(known[at], m);
      if i > at {
        OlderIsTransitive(m, known[at], known[i]);
      }
    }
    InsertedMessageOrder(known, at, m);
    assert known == known[..at] + known[at..];
  }

  lemma InsertedMessageOrder(known: seq<Message>, at: nat, m: Message)
    requires InOrder(known) && at <= |known|
    requires forall i :: 0 <= i < at ==> Older(known[i], m)
    requires forall i :: at <= i < |known| ==> Older(m, known[i])
    ensures InOrder(known[..at] + [m] + known[at..])
  {
    hide Older;
    var r := known[..at] + [m] + known[at..];
    forall i, j | 0 <= i < j < |r| ensures Older(r[i], r[j]) {
      assert r[i] == if i < at then known[i] else if i == at then m else known[i - 1];
      assert r[j] == if j < at then known[j] else if j == at then m else known[j - 1];
    }
  }

  method SortThreads(ts: set<Thread>) returns (list: seq<Thread>)
    requires forall a, b :: a in ts && b in ts && a != b ==> a.id != b.id
    ensures Ranked(list) && forall t :: t in list <==> t in ts
  {
    hide Newer;
    list := [];
    var rest := ts;
    while rest != {}
      invariant rest <= ts && Ranked(list) && forall t :: t in list <==> t in ts && t !in rest
      decreases |rest|
    {
      var t :| t in rest;
      rest := rest - {t};
      var at := 0;
      while at < |list| && Newer(list[at], t)
        invariant at <= |list| && forall i :: 0 <= i < at ==> Newer(list[i], t)
      {
        at := at + 1;
      }
      InsertThread(list, at, t);
      list := list[..at] + [t] + list[at..];
    }
  }

  lemma InsertThread(list: seq<Thread>, at: nat, t: Thread)
    requires Ranked(list) && at <= |list| && (forall i :: 0 <= i < at ==> Newer(list[i], t))
    requires (at < |list| ==> !Newer(list[at], t)) && forall k :: k in list ==> k.id != t.id
    ensures Ranked(list[..at] + [t] + list[at..])
    ensures forall k :: k in list[..at] + [t] + list[at..] <==> k in list || k == t
  {
    hide Newer;
    forall i | at <= i < |list| ensures Newer(t, list[i]) {
      assert list[at] in list;
      NewerIsStrict(list[at], t);
      if i > at {
        NewerIsTransitive(t, list[at], list[i]);
      }
    }
    InsertedThreadOrder(list, at, t);
    assert list == list[..at] + list[at..];
  }

  lemma InsertedThreadOrder(list: seq<Thread>, at: nat, t: Thread)
    requires Ranked(list) && at <= |list|
    requires forall i :: 0 <= i < at ==> Newer(list[i], t)
    requires forall i :: at <= i < |list| ==> Newer(t, list[i])
    ensures Ranked(list[..at] + [t] + list[at..])
  {
    hide Newer;
    var r := list[..at] + [t] + list[at..];
    forall i, j | 0 <= i < j < |r| ensures Newer(r[i], r[j]) {
      assert r[i] == if i < at then list[i] else if i == at then t else list[i - 1];
      assert r[j] == if j < at then list[j] else if j == at then t else list[j - 1];
    }
  }

  // ---------------------------------------------------------------- the threading index

  ghost predicate Named(messages: Messages) {
    forall id :: id in messages ==> messages[id].id == id
  }

  ghost function ParentLinks(m: Message, n: nat): Links
    requires n <= |ParentIds(m)|
  {
    set p | p in ParentIds(m)[..n] :: (m.id, p)
  }

  lemma NextParent(m: Message, n: nat, links: Links)
    requires n < |ParentIds(m)|
    ensures links + ParentLinks(m, n + 1) == (links + ParentLinks(m, n)) + {(m.id, ParentIds(m)[n])}
  {
    var ps := ParentIds(m);
    assert ps[..n + 1] == ps[..n] + [ps[n]];
    assert ParentLinks(m, n + 1) == ParentLinks(m, n) + {(m.id, ps[n])};
  }

  lemma LinksGrow(messages: Messages, m: Message)
    requires m.id !in messages
    ensures LinksOf(messages[m.id := m]) == LinksOf(messages) + ParentLinks(m, |ParentIds(m)|)
  {
    var ps := ParentIds(m);
    assert ps[..|ps|] == ps;
    hide ParentIds, Collect;
    var after := messages[m.id := m];
    forall a, b ensures (a, b) in LinksOf(after) <==> (a, b) in LinksOf(messages) + ParentLinks(m, |ps|) {
      if (a, b) in LinksOf(after) {
        assert a in after && b in ParentIds(after[a]);
      }
    }
  }

  /** What the index keeps true: its sets are the components of every link it has seen. */
  ghost predicate Indexed(root: map<string, string>, messages: Messages, links: Links) {
    Matches(root, links) && RootsKnown(root) && Named(messages) && messages.Keys <= root.Keys
  }

  lemma FoundKeeps(root: map<string, string>, links: Links, x: string, root': map<string, string>)
    requires Matches(root, links) && RootsKnown(root) && root' == (if x in root then root else root[x := x])
    ensures Matches(root', links) && RootsKnown(root') && x in root' && root.Keys <= root'.Keys
  {
    if x !in root {
      MatchesGrown(root, links, x);
    }
  }

  /** The delivered members of one set are one conversation. */
  lemma SetIsConversation(root: map<string, string>, messages: Messages, links: Links, key: string,
                          members: seq<string>, known: seq<Message>)
    requires Indexed(root, messages, links) && key in root && InOrder(known)
    requires forall k :: k in members <==> k in root && root[k] == root[key]
    requires forall m :: m in known <==> m.id in members && m.id in messages && messages[m.id] == m
    ensures IsConversation(messages, links, key, known)
    ensures key in messages ==> known != []
  {
    hide Connected, Matches, Older;
    forall m ensures m in known <==> m.id in messages && messages[m.id] == m && Connected(links, m.id, key) {
      if m.id in messages {
        SameRootIffConnected(root, links, m.id, key);
      }
    }
    if key in messages {
      assert messages[key] in known;
    }
  }

  /** Conversations of connected ids are the same conversation. */
  lemma ConnectedConversation(messages: Messages, links: Links, a: string, b: string, known: seq<Message>)
    requires Connected(links, a, b) && IsConversation(messages, links, a, known)
    ensures IsConversation(messages, links, b, known)
  {
    hide Older;
    forall m: Message ensures Connected(links, m.id, a) <==> Connected(links, m.id, b) {
      ConnectedAlong(links, m.id, a, b);
    }
    hide Connected;
  }

  lemma ConnectedAlong(links: Links, x: string, a: string, b: string)
    requires Connected(links, a, b)
    ensures Connected(links, x, a) <==> Connected(links, x, b)
    ensures Connected(links, b, a) && Connected(links, x, x)
  {
    forall s | Closed(links, s) ensures a in s <==> b in s {
    }
    hide Closed;
  }

  lemma ThreadOfEither(messages: Messages, links: Links, a: string, b: string, t: Thread)
    requires Connected(links, a, b) && IsThreadOf(messages, links, a, t)
    ensures IsThreadOf(messages, links, b, t)
  {
    var known :| known != [] && IsConversation(messages, links, a, known) && t == Build(known);
    ConnectedConversation(messages, links, a, b, known);
  }

  /** A thread is named by one of its own messages, so two threads with one name are one thread. */
  lemma ThreadNames(messages: Messages, links: Links, a: string, b: string, t: Thread, u: Thread)
    requires IsThreadOf(messages, links, a, t) && IsThreadOf(messages, links, b, u) && t.id == u.id
    ensures t == u
  {
    hide Older;
    var known :| known != [] && IsConversation(messages, links, a, known) && t == Build(known);
    var other :| other != [] && IsConversation(messages, links, b, other) && u == Build(other);
    assert known[0] in known && other[0] in other;
    assert Connected(links, t.id, a) && Connected(links, t.id, b);
    ConnectedAlong(links, t.id, t.id, a);
    ConnectedAlong(links, a, t.id, b);
    hide Connected;
    ThreadOfEither(messages, links, a, b, t);
    ThreadIsUnique(messages, links, b, t, u);
  }

  // ---------------------------------------------------------------- small facts for the index

  lemma NoParents(m: Message, links: Links)
    ensures links + ParentLinks(m, 0) == links
  {
    assert ParentIds(m)[..0] == [];
    assert ParentLinks(m, 0) == {};
  }

  lemma JoinedKeys(root: map<string, string>, id: string, left: string, right: string, r: string)
    requires id in root && left in root && root[id] == root[left]
    ensures var j := Joined(Grown(root, left, right), left, right, r);
            root.Keys <= j.Keys && id in j && right in j && j[id] == j[left] == j[right] == r
  {
  }

  lemma IsItsThread(messages: Messages, links: Links, id: string, known: seq<Message>)
    requires known != [] && IsConversation(messages, links, id, known)
    ensures exists t :: IsThreadOf(messages, links, id, t) && known[0].id == t.id
  {
    hide IsConversation;
    assert IsThreadOf(messages, links, id, Build(known)) && known[0].id == Build(known).id;
  }

  lemma MoreNamed(messages: Messages, m: Message)
    requires Named(messages)
    ensures Named(messages[m.id := m])
  {
  }

  lemma NamedApart(messages: Messages, ids: seq<string>)
    requires Named(messages)
    ensures var ms := set mid | mid in ids && mid in messages :: messages[mid];
            forall a, b :: a in ms && b in ms && a != b ==> a.id != b.id
  {
  }

  lemma NamedMembers(messages: Messages, ids: seq<string>, ms: set<Message>)
    requires Named(messages) && ms == set mid | mid in ids && mid in messages :: messages[mid]
    ensures forall m :: m in ms <==> m.id in ids && m.id in messages && messages[m.id] == m
  {
  }

  lemma SeedIsThread(root: map<string, string>, messages: Messages, links: Links, id: string, s: string,
                     known: seq<Message>)
    requires Indexed(root, messages, links) && id in messages && s in root && root[id] == s && root[s] == s
    requires IsConversation(messages, links, s, known)
    ensures known != [] && IsThreadOf(messages, links, s, Build(known)) && IsThreadOf(messages, links, id, Build(known))
  {
    SameRootIffConnected(root, links, id, s);
    assert messages[id] in known;
    hide IsConversation, Matches;
    ConnectedAlong(links, s, id, s);
    ThreadOfEither(messages, links, s, id, Build(known));
  }

  /** `seeds` are the roots of `ids`. */
  ghost predicate SeedsOf(root: map<string, string>, ids: set<string>, seeds: set<string>) {
    && seeds <= root.Keys && ids <= root.Keys
    && (forall id {:trigger id in ids} :: id in ids ==> root[id] in seeds)
    && (forall s {:trigger s in seeds} :: s in seeds ==> root[s] == s && exists id :: id in ids && root[id] == s)
  }

  lemma SeedsNone(root: map<string, string>)
    ensures SeedsOf(root, {}, {})
  {
  }

  lemma SeedsAdd(root: map<string, string>, ids: set<string>, seeds: set<string>, id: string)
    requires SeedsOf(root, ids, seeds) && id in root && root[id] in root && root[root[id]] == root[id]
    ensures SeedsOf(root, ids + {id}, seeds + {root[id]})
  {
    var more := seeds + {root[id]};
    forall s {:trigger s in more} | s in more ensures root[s] == s && exists x :: x in ids + {id} && root[x] == s {
      if s in seeds {
        var x :| x in ids && root[x] == s;
        assert x in ids + {id};
      } else {
        assert id in ids + {id} && root[id] == s;
      }
    }
  }

  lemma SeedFrom(root: map<string, string>, ids: set<string>, seeds: set<string>, s: string) returns (id: string)
    requires SeedsOf(root, ids, seeds) && s in seeds
    ensures s in root && root[s] == s && id in ids && id in root && root[id] == s
  {
    id :| id in ids && root[id] == s;
  }

  /** Every built thread is one of the mailbox's, and every seed done so far has its thread. */
  ghost predicate BuiltFor(messages: Messages, links: Links, done: set<string>, built: set<Thread>) {
    && (forall t :: t in built ==> exists id :: id in messages && IsThreadOf(messages, links, id, t))
    && (forall s :: s in done ==> exists t :: t in built && IsThreadOf(messages, links, s, t))
  }

  lemma BuiltNone(messages: Messages, links: Links)
    ensures BuiltFor(messages, links, {}, {})
  {
  }

  lemma BuiltAdd(messages: Messages, links: Links, done: set<string>, built: set<Thread>, s: string, id: string,
                 t: Thread)
    requires BuiltFor(messages, links, done, built) && id in messages
    requires IsThreadOf(messages, links, s, t) && IsThreadOf(messages, links, id, t)
    ensures BuiltFor(messages, links, done + {s}, built + {t})
  {
    hide IsThreadOf;
    forall x | x in done + {s} ensures exists u :: u in built + {t} && IsThreadOf(messages, links, x, u) {
      if x in done {
        var u :| u in built && IsThreadOf(messages, links, x, u);
        assert u in built + {t};
      } else {
        assert t in built + {t};
      }
    }
  }

  lemma BuiltApart(messages: Messages, links: Links, done: set<string>, built: set<Thread>)
    requires BuiltFor(messages, links, done, built)
    ensures forall a, b :: a in built && b in built && a != b ==> a.id != b.id
  {
    hide IsThreadOf;
    forall a, b | a in built && b in built && a.id == b.id ensures a == b {
      var x :| x in messages && IsThreadOf(messages, links, x, a);
      var y :| y in messages && IsThreadOf(messages, links, y, b);
      ThreadNames(messages, links, x, y, a, b);
    }
  }

  lemma MailboxBuilt(root: map<string, string>, messages: Messages, links: Links, seeds: set<string>,
                     built: set<Thread>, list: seq<Thread>)
    requires Indexed(root, messages, links) && Ranked(list) && (forall t :: t in list <==> t in built)
    requires SeedsOf(root, messages.Keys, seeds) && BuiltFor(messages, links, seeds, built)
    ensures IsMailbox(messages, links, list)
  {
    hide IsThreadOf, Newer, Connected, Matches;
    forall id, t | id in messages && IsThreadOf(messages, links, id, t) ensures t in built {
      assert id in messages.Keys;
      var s := root[id];
      assert s in seeds;
      var u :| u in built && IsThreadOf(messages, links, s, u);
      SameRootIffConnected(root, links, id, s);
      ConnectedAlong(links, s, id, s);
      ThreadOfEither(messages, links, s, id, u);
      ThreadIsUnique(messages, links, id, t, u);
    }
  }

  class MailboxThreader {
    const mergeBySubject: bool
    const subjectKey: string -> string  // normalise_subject
    const hasPrefix: string -> bool  // SUBJECT_PREFIX.match
    const isBlank: string -> bool  // nothing left after strip()
    const sets: UnionFind
    var messages: Messages
    var subjectSeed: map<string, string>
    ghost var rescued: Links  // links the subject fallback added

    ghost function AllLinks(): Links
      reads this
    {
      LinksOf(messages) + rescued
    }

    ghost predicate Valid()
      reads this, sets
    {
      && sets.Valid() && Indexed(sets.root, messages, AllLinks())
      && (!mergeBySubject ==> rescued == {})
      && forall k :: k in subjectSeed ==> subjectSeed[k] in messages
    }

    constructor (mergeBySubject: bool, subjectKey: string -> string, hasPrefix: string -> bool, isBlank: string -> bool)
      ensures Valid() && messages == map[] && fresh(sets) && this.mergeBySubject == mergeBySubject &&
              this.isBlank == isBlank
    {
      this.mergeBySubject, this.subjectKey, this.hasPrefix, this.isBlank :=
            mergeBySubject, subjectKey, hasPrefix, isBlank;
      sets := new UnionFind();
      messages, subjectSeed, rescued := map[], map[], {};
    }

    lemma Unpack()
      requires Valid()
      ensures sets.Valid() && Indexed(sets.root, messages, AllLinks()) && AllLinks() == LinksOf(messages) + rescued
      ensures Matches(sets.root, AllLinks()) && RootsKnown(sets.root) && Named(messages) &&
              messages.Keys <= sets.root.Keys
      ensures (!mergeBySubject ==> rescued == {}) && forall k :: k in subjectSeed ==> subjectSeed[k] in messages
    {
    }

    lemma Repack(links: Links)
      requires sets.Valid() && Matches(sets.root, links) && RootsKnown(sets.root) &&
               links == LinksOf(messages) + rescued
      requires Named(messages) && messages.Keys <= sets.root.Keys
      requires (!mergeBySubject ==> rescued == {}) && forall k :: k in subjectSeed ==> subjectSeed[k] in messages
      ensures Valid()
    {
    }

    /** Union the message with every ancestor it claims; a missing one becomes a ghost. */
    method LinkParents(m: Message, start: string, ghost links: Links) returns (r: string)
      requires sets.Valid() && Matches(sets.root, links) && RootsKnown(sets.root)
      requires m.id in sets.root && start == sets.root[m.id]
      modifies sets
      ensures sets.Valid() && Matches(sets.root, links + ParentLinks(m, |ParentIds(m)|)) && RootsKnown(sets.root)
      ensures old(sets.root).Keys <= sets.root.Keys && m.id in sets.root && r == sets.root[m.id]
    {
      hide *;
      r := start;
      var parents := ParentIds(m);
      NoParents(m, links);
      for i := 0 to |parents|
        invariant sets.Valid() && Matches(sets.root, links + ParentLinks(m, i)) && RootsKnown(sets.root)
        invariant old(sets.root).Keys <= sets.root.Keys && m.id in sets.root && r == sets.root[m.id]
      {
        r := LinkOne(m.id, r, parents[i], links + ParentLinks(m, i));
        NextParent(m, i, links);
      }
    }

    /** `union(root, other)`, where `left` is the root of `id`. */
    method LinkOne(id: string, left: string, right: string, ghost links: Links) returns (r: string)
      requires sets.Valid() && Matches(sets.root, links) && RootsKnown(sets.root) && id in sets.root &&
               left == sets.root[id]
      modifies sets
      ensures sets.Valid() && Matches(sets.root, links + {(id, right)}) && RootsKnown(sets.root)
      ensures old(sets.root).Keys <= sets.root.Keys && id in sets.root && r == sets.root[id]
    {
      hide *;
      ghost var before := sets.root;
      RootOfRoot(id);
      r := sets.Union(left, right);
      MatchesJoined(before, links, id, left, right, r);
      JoinedKeys(before, id, left, right, r);
    }

    lemma RootOfRoot(id: string)
      requires sets.Valid() && id in sets.root
      ensures sets.root[id] in sets.root && sets.root[sets.root[id]] == sets.root[id]
    {
      sets.AtNode(id);
    }

    /** Index one delivered message; a redelivery changes nothing. The answer is the id of the oldest
        delivered message of its conversation. */
    method Add(m: Message) returns (res: Result<string>)
      requires Valid()
      modifies this, sets
      ensures Valid()
      ensures res.Invalid? <==> isBlank(m.id)
      ensures isBlank(m.id) || m.id in old(messages) ==> messages == old(messages) && rescued == old(rescued)
      ensures !isBlank(m.id) && m.id !in old(messages) ==> messages == old(messages)[m.id := m]
      ensures res.Ok? || res.Invalid?
      ensures res.Ok? ==> m.id in messages
                          && exists t :: IsThreadOf(messages, AllLinks(), m.id, t) && res.value == t.id
    {
      hide *;
      if isBlank(m.id) {
        return Invalid;
      }
      Unpack();
      if m.id !in messages {
        Insert(m);
      }
      Unpack();
      var known := Delivered(m.id);
      IsItsThread(messages, AllLinks(), m.id, known);
      return Ok(known[0].id);
    }

    lemma Regrouped(a: Links, b: Links, c: Links, d: Links)
      ensures (a + b) + c + d == (a + c) + (b + d)
    {
    }

    method Insert(m: Message)
      requires Valid() && m.id !in messages
      modifies this, sets
      ensures Valid() && messages == old(messages)[m.id := m]
    {
      hide *;
      Unpack();
      ghost var links := AllLinks();
      var root := FindOrAdd(m.id, links);
      root := LinkParents(m, root, links);
      LinksGrow(messages, m);
      ghost var more := links + ParentLinks(m, |ParentIds(m)|);
      ghost var rescue := RescueBySubject(m, root, more);
      MoreNamed(messages, m);
      Regrouped(LinksOf(messages), old(rescued), ParentLinks(m, |ParentIds(m)|), rescue);
      messages := messages[m.id := m];
      Repack(more + rescue);
    }

    method FindOrAdd(key: string, ghost links: Links) returns (r: string)
      requires sets.Valid() && Matches(sets.root, links) && RootsKnown(sets.root)
      modifies sets
      ensures sets.Valid() && Matches(sets.root, links) && RootsKnown(sets.root)
      ensures key in sets.root && r == sets.root[key] && old(sets.root).Keys <= sets.root.Keys
    {
      hide *;
      sets.Unpack();
      ghost var before := sets.root;
      r := sets.Find(key);
      FoundKeeps(before, links, key, sets.root);
    }

    /** A reply whose headers were stripped joins the first conversation with its subject. */
    method RescueBySubject(m: Message, root: string, ghost links: Links) returns (ghost rescue: Links)
      requires sets.Valid() && Matches(sets.root, links) && RootsKnown(sets.root) && m.id in sets.root &&
               root == sets.root[m.id]
      modifies this`subjectSeed, this`rescued, sets
      ensures sets.Valid() && Matches(sets.root, links + rescue) && RootsKnown(sets.root) &&
              old(sets.root).Keys <= sets.root.Keys
      ensures rescued == old(rescued) + rescue && (!mergeBySubject ==> rescue == {})
      ensures forall k :: k in subjectSeed ==>
                subjectSeed[k] == m.id || (k in old(subjectSeed) && subjectSeed[k] == old(subjectSeed)[k])
    {
      hide *;
      rescue := {};
      assert links + {} == links;
      assert rescued + {} == rescued;
      if mergeBySubject {
        var key := subjectKey(m.subject);
        if key != "" {
          if key in subjectSeed && (ParentIds(m) != [] || hasPrefix(m.subject)) {
            var seed := subjectSeed[key];
            var joined := LinkOne(m.id, root, seed, links);
            rescue := {(m.id, seed)};
            rescued := rescued + rescue;
          }
          if key !in subjectSeed {
            subjectSeed := subjectSeed[key := m.id];
          }
        }
      }
    }

    /** The delivered messages of a set, oldest first. */
    method Delivered(key: string) returns (known: seq<Message>)
      requires Valid() && key in sets.root
      modifies sets
      ensures Valid() && sets.root == old(sets.root)
      ensures IsConversation(messages, AllLinks(), key, known)
      ensures key in messages ==> known != []
      ensures forall m :: m in known <==>
                m.id in messages && messages[m.id] == m && m.id in sets.root && sets.root[m.id] == sets.root[key]
    {
      hide *;
      var r := FindKnown(key);
      Unpack();
      sets.MembersAre(r);
      var ids := sets.members[r];
      var ms := set mid | mid in ids && mid in messages :: messages[mid];
      NamedApart(messages, ids);
      known := SortMessages(ms);
      NamedMembers(messages, ids, ms);
      SetIsConversation(sets.root, messages, AllLinks(), key, ids, known);
    }

    /** `find` on a known id: only path compression. */
    method FindKnown(key: string) returns (r: string)
      requires Valid() && key in sets.root
      modifies sets
      ensures Valid() && sets.root == old(sets.root) && r == sets.root[key] && r in sets.members
    {
      hide *;
      Unpack();
      sets.Unpack();
      ghost var links := AllLinks();
      r := sets.Find(key);
      Repack(links);
    }

    /** Every thread, newest activity first. */
    method Threads() returns (list: seq<Thread>)
      requires Valid()
      modifies sets
      ensures Valid() && IsMailbox(messages, AllLinks(), list)
    {
      hide *;
      var seeds := Seeds();
      var built: set<Thread> := {};
      var rest := seeds;
      ghost var links, root := AllLinks(), sets.root;
      BuiltNone(messages, links);
      assert seeds - rest == {};
      while rest != {}
        invariant Valid() && rest <= seeds && sets.root == root && BuiltFor(messages, links, seeds - rest, built)
        decreases |rest|
      {
        var s :| s in rest;
        ghost var id := SeedFrom(root, messages.Keys, seeds, s);
        var known := Delivered(s);
        Unpack();
        SeedIsThread(root, messages, links, id, s, known);
        BuiltAdd(messages, links, seeds - rest, built, s, id, Build(known));
        assert seeds - (rest - {s}) == (seeds - rest) + {s};
        rest := rest - {s};
        built := built + {Build(known)};
      }
      assert seeds - {} == seeds;
      Unpack();
      BuiltApart(messages, links, seeds, built);
      list := SortThreads(built);
      MailboxBuilt(root, messages, links, seeds, built, list);
    }

    ghost predicate Shared(rest: set<string>, done: set<string>, keys: set<string>) {
      rest + done == keys
    }

    lemma OneDone(rest: set<string>, done: set<string>, keys: set<string>, id: string)
      requires Shared(rest, done, keys) && id in rest
      ensures id in keys && Shared(rest - {id}, done + {id}, keys)
    {
    }

    lemma AllDone(done: set<string>, keys: set<string>)
      ensures Shared(keys, {}, keys) && (Shared({}, done, keys) ==> done == keys)
    {
    }

    method NextSeed(id: string, ghost done: set<string>, ghost seeds: set<string>) returns (r: string)
      requires Valid() && id in messages && SeedsOf(sets.root, done, seeds)
      modifies sets
      ensures Valid() && sets.root == old(sets.root) && SeedsOf(sets.root, done + {id}, seeds + {r})
    {
      hide *;
      Unpack();
      RootOfRoot(id);
      SeedsAdd(sets.root, done, seeds, id);
      r := FindKnown(id);
    }

    /** The roots of the delivered messages. */
    method Seeds() returns (seeds: set<string>)
      requires Valid()
      modifies sets
      ensures Valid() && sets.root == old(sets.root) && SeedsOf(sets.root, messages.Keys, seeds)
    {
      hide *;
      Unpack();
      seeds := {};
      var rest := messages.Keys;
      ghost var root := sets.root;
      ghost var done: set<string> := {};
      AllDone({}, messages.Keys);
      SeedsNone(root);
      while rest != {}
        invariant Valid() && Shared(rest, done, messages.Keys) && sets.root == root
        invariant SeedsOf(root, done, seeds)
        decreases |rest|
      {
        var id :| id in rest;
        OneDone(rest, done, messages.Keys, id);
        var r := NextSeed(id, done, seeds);
        rest, done := rest - {id}, done + {id};
        seeds := seeds + {r};
      }
      AllDone(done, messages.Keys);
    }
  }

  // ---------------------------------------------------------------- delivery order does not matter

  /** The messages kept of a stream of deliveries: the first of each id, blank ids refused. */
  function Kept(run: seq<Message>, isBlank: string -> bool): Messages {
    if run == [] then map[] else
      var before, m := Kept(run[..|run| - 1], isBlank), run[|run| - 1];
      if isBlank(m.id) || m.id in before then before else before[m.id := m]
  }

  /** One content per Message-ID. */
  ghost predicate Consistent(run: seq<Message>) {
    forall i, j :: 0 <= i < |run| && 0 <= j < |run| && run[i].id == run[j].id ==> run[i] == run[j]
  }

  lemma {:induction false} KeptIs(run: seq<Message>, isBlank: string -> bool, id: string)
    requires Consistent(run)
    ensures id in Kept(run, isBlank) <==> !isBlank(id) && exists i :: 0 <= i < |run| && run[i].id == id
    ensures id in Kept(run, isBlank) ==> Kept(run, isBlank)[id] in run && Kept(run, isBlank)[id].id == id
  {
    if run != [] {
      var n := |run| - 1;
      KeptIs(run[..n], isBlank, id);
      if i :| 0 <= i < n && run[..n][i].id == id {
        assert run[i].id == id;
      }
      if i :| 0 <= i < |run| && run[i].id == id {
        assert i < n ==> run[..n][i].id == id;
      }
    }
  }

  /** Two streams with the same messages, in any order and however often repeated, leave the same mailbox. */
  lemma OrderDoesNotMatter(a: seq<Message>, b: seq<Message>, isBlank: string -> bool)
    requires Consistent(a) && Consistent(b) && forall m :: m in a <==> m in b
    ensures Kept(a, isBlank) == Kept(b, isBlank)
  {
    var x, y := Kept(a, isBlank), Kept(b, isBlank);
    forall id ensures id in x <==> id in y {
      KeptIs(a, isBlank, id);
      KeptIs(b, isBlank, id);
      if i :| 0 <= i < |a| && a[i].id == id {
        assert a[i] in b;
      }
      if i :| 0 <= i < |b| && b[i].id == id {
        assert b[i] in a;
      }
    }
    forall id | id in x ensures x[id] == y[id] {
      KeptIs(a, isBlank, id);
      KeptIs(b, isBlank, id);
      assert y[id] in a;
      var i :| 0 <= i < |a| && a[i] == x[id];
      var j :| 0 <= j < |a| && a[j] == y[id];
    }
  }

  /** Deliver a stream to a fresh index without the subject fallback and list its threads. */
  method ThreadsOf(run: seq<Message>, subjectKey: string -> string, hasPrefix: string -> bool, isBlank: string -> bool)
      returns (list: seq<Thread>)
    ensures var messages := Kept(run, isBlank); IsMailbox(messages, LinksOf(messages), list)
  {
    hide *;
    var index := new MailboxThreader(false, subjectKey, hasPrefix, isBlank);
    NoneKept(run, isBlank);
    for i := 0 to |run|
      invariant index.Valid() && fresh(index) && fresh(index.sets) && !index.mergeBySubject && index.isBlank == isBlank
      invariant index.messages == Kept(run[..i], isBlank)
    {
      KeptStep(run, isBlank, i);
      var added := index.Add(run[i]);
    }
    assert run[..|run|] == run;
    list := index.Threads();
    index.Unpack();
    assert LinksOf(index.messages) + {} == LinksOf(index.messages);
  }

  lemma NoneKept(run: seq<Message>, isBlank: string -> bool)
    ensures Kept(run[..0], isBlank) == map[]
  {
  }

  lemma KeptStep(run: seq<Message>, isBlank: string -> bool, i: nat)
    requires i < |run|
    ensures var before, m := Kept(run[..i], isBlank), run[i];
            Kept(run[..i + 1], isBlank) == if isBlank(m.id) || m.id in before then before else before[m.id := m]
  {
    assert run[..i + 1][..i] == run[..i];
  }

  /** Whatever the order, and however often mail is redelivered, the thread list is the same. */
  lemma SameThreadsWhateverTheOrder(a: seq<Message>, b: seq<Message>, isBlank: string -> bool, x: seq<Thread>,
                                    y: seq<Thread>)
    requires Consistent(a) && Consistent(b) && forall m :: m in a <==> m in b
    requires IsMailbox(Kept(a, isBlank), LinksOf(Kept(a, isBlank)), x)
    requires IsMailbox(Kept(b, isBlank), LinksOf(Kept(b, isBlank)), y)
    ensures x == y
  {
    hide IsMailbox, Kept;
    OrderDoesNotMatter(a, b, isBlank);
    MailboxIsUnique(Kept(a, isBlank), LinksOf(Kept(a, isBlank)), x, y);
  }
}
