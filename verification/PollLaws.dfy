/**
 What the handlers of the poll loop come to for a single entry, in terms of the
 clients and descriptors themselves.
 */
module PollLaws {
  import opened Options
  import opened PollSpec

  /** Every configuration names a server block that exists. */
  ghost predicate AllNamed(configs: seq<ServerConfig>, blocks: nat) {
    forall c :: c in configs ==> 0 <= c.block < blocks
  }

  /** The system is asked: for a new connection on the entry of a server, for data on that of a client. */
  predicate Asks(p: PollFd) {
    !p.failed && p.readable
  }

  /** How many of the entries lo to hi - 1 ask. */
  function Calls(ps: seq<PollFd>, lo: nat, hi: nat): nat
    requires hi <= |ps|
    decreases hi - lo
  {
    if lo >= hi then 0 else (if Asks(ps[lo]) then 1 else 0) + Calls(ps, lo + 1, hi)
  }

  lemma {:induction false} NamedOnce(configs: seq<ServerConfig>, i: nat, j: nat)
    requires i < j < |configs| && configs[i].fd == configs[j].fd >= 0
    ensures !Unique(Opened(configs))
  {
    var n := |configs| - 1;
    var all, front := Opened(configs), Opened(configs[..n]);
    if j < n {
      NamedOnce(configs[..n], i, j);
      var a, b :| 0 <= a < b < |front| && front[a] == front[b];
      assert all[a] == all[b];
    } else {
      OpenedHas(configs[..n], i);
      var a :| 0 <= a < |front| && front[a] == configs[j].fd;
      assert all[a] == all[|front|];
    }
  }

  lemma OpenedUnique(s: Servers, v: Vectors)
    requires Agree(s, v)
    ensures Unique(Opened(s.configs))
  {
    var f := Fds(s.polls);
    forall i, j | 0 <= i < j < |f|
      ensures f[i] != f[j]
    {
      assert Fds(v.polls)[i] == f[i] && Fds(v.polls)[j] == f[j];
    }
  }

  /** The entry of a server leads to its own configuration, and to accept if and only if that names a block. */
  lemma HasBlockExactly(s: Servers, v: Vectors, idx: nat, blocks: nat, j: nat)
    requires Agree(s, v) && idx < |s.polls| && idx < |v.polls|
    requires j < |s.configs| && s.configs[j].fd == v.polls[idx].fd
    ensures HasBlock(s.configs, blocks, v.polls[idx].fd) <==> 0 <= s.configs[j].block < blocks
  {
    hide Opened, Unique;
    var k := FirstIndex(ConfigFds(s.configs), v.polls[idx].fd);
    assert ConfigFds(s.configs)[j] == v.polls[idx].fd;
    OpenedUnique(s, v);
    if k < j {
      NamedOnce(s.configs, k, j);
    }
  }

  lemma ServerHasBlock(s: Servers, v: Vectors, idx: nat, blocks: nat)
    requires Agree(s, v) && idx < |s.polls| && AllNamed(s.configs, blocks)
    ensures idx < |v.polls| && HasBlock(s.configs, blocks, v.polls[idx].fd)
  {
    hide Agree, HasBlock;
    var j := ServerConfigOf(s, v, idx);
    assert s.configs[j] in s.configs;
    HasBlockExactly(s, v, idx, blocks, j);
  }

  /** A client as it is accepted, and as it is again when it has been reset. */
  predicate IsNew(c: Client, fd: int) {
    c.id == fd && !c.keepAlive && !c.allRecv && !c.stringSent && c.response == [] && c.file.Closed?
  }

  /** A readable entry of a server: accept is called once, and if it brings a descriptor there is one client more. */
  lemma AcceptBrings(s: Servers, blocks: nat, idx: nat, x: World, y: World, broken: bool)
    requires Agree(s, x.v) && AllNamed(s.configs, blocks) && idx < |s.polls| && idx < |x.v.polls|
    requires Asks(x.v.polls[idx])
    requires Outcome(|s.polls|, HasBlock(s.configs, blocks, x.v.polls[idx].fd), idx, x, y, broken)
    ensures !broken && y.log.received == x.log.received && y.log.requests == x.log.requests
    ensures |y.log.descriptors| == |x.log.descriptors| + 1
    ensures var fd, n := y.log.descriptors[|x.log.descriptors|], |x.v.clients|;
            if fd < 0 then y.v == x.v
            else
              && |y.v.clients| == n + 1 && y.v.clients[..n] == x.v.clients && IsNew(y.v.clients[n], fd)
              && |y.v.polls| == |x.v.polls| + 1 && y.v.polls[..|x.v.polls|] == x.v.polls
              && var p := y.v.polls[|x.v.polls|]; p.fd == fd && p.events == PollIn
  {
    hide Agree, HasBlock;
    ServerHasBlock(s, x.v, idx, blocks);
  }

  /** The k-th client is gone, and nothing else has changed. */
  ghost predicate IsGone(v: Vectors, servers: nat, k: nat, w: Vectors) {
    && k < |v.clients| && |v.polls| == servers + |v.clients|
    && w.clients == v.clients[..k] + v.clients[k + 1..]
    && w.polls == v.polls[..servers + k] + v.polls[servers + k + 1..]
    && v.clients[k].id !in Ids(w.clients) && v.clients[k].id !in Fds(w.polls) && v.clients[k].id !in Fds(w.clientPolls)
  }

  /** The k-th client is new again and can be read, and nothing else has changed. */
  ghost predicate IsReset(v: Vectors, servers: nat, k: nat, w: Vectors) {
    && k < |v.clients| && |v.polls| == servers + |v.clients|
    && |w.clients| == |v.clients| && IsNew(w.clients[k], v.clients[k].id) && w.clients == v.clients[k := w.clients[k]]
    && w.polls == v.polls[servers + k := v.polls[servers + k].(events := PollIn)] && w.clientPolls == v.clientPolls
  }

  ghost predicate IsEnded(v: Vectors, servers: nat, k: nat, w: Vectors)
    requires k < |v.clients|
  {
    if v.clients[k].keepAlive then IsReset(v, servers, k, w) else IsGone(v, servers, k, w)
  }

  lemma NotTwice(s: seq<int>, i: nat)
    requires Unique(s) && i < |s|
    ensures s[i] !in Without(s, i)
  {
    var r := Without(s, i);
    forall j | 0 <= j < |r|
      ensures r[j] != s[i]
    {
      assert r[j] == s[if j < i then j else j + 1];
    }
  }

  lemma NotAnother(v: Vectors, k: nat)
    requires k < |v.clients| && Unique(Ids(v.clients))
    ensures v.clients[k].id !in Ids(Without(v.clients, k))
  {
    hide Unique, Without;
    NotTwice(Ids(v.clients), k);
    IdsWithout(v.clients, k);
  }

  lemma ClientsUnique(s: Servers, v: Vectors)
    requires Agree(s, v)
    ensures Unique(Ids(v.clients))
  {
    AgreeSizes(s, v);
    var f, n := Ids(v.clients), |s.polls|;
    forall i, j | 0 <= i < j < |f|
      ensures f[i] != f[j]
    {
      assert Fds(v.polls)[n + i] == f[i] && Fds(v.polls)[n + j] == f[j];
    }
  }

  /** Closing a connection: the client is gone, or kept alive and new again. */
  lemma CloseEnds(s: Servers, v: Vectors, k: nat)
    requires Agree(s, v) && k < |v.clients|
    ensures IsEnded(v, |s.polls|, k, AfterClose(v, |s.polls| + k))
  {
    hide Agree, AfterClose, Unique, Fds, Ids;
    CloseOf(s, v, k);
    if !v.clients[k].keepAlive {
      ClientsUnique(s, v);
      NotAnother(v, k);
      AgreeErase(s, v, k);
      StillApart(s, v, k);
    }
  }

  lemma StillApart(s: Servers, v: Vectors, k: nat)
    requires Agree(s, v) && k < |v.clients| && |v.polls| == |s.polls| + |v.clients|
    ensures |v.clientPolls| == |v.clients|
    ensures var w := Erased(v, k, |s.polls| + k);
            v.clients[k].id !in Fds(w.polls) && v.clients[k].id !in Fds(w.clientPolls)
  {
    hide Unique, Without, Opened;
    Places(s, v, k);
    var i := |s.polls| + k;
    NotTwice(Fds(v.polls), i);
    FdsWithout(v.polls, i);
    NotTwice(Ids(v.clients), k) by { ClientsUnique(s, v); }
    FdsWithout(v.clientPolls, k);
  }

  /**
   A readable entry of a client: recv is called once. Without data the connection
   ends; with data the client is what check_request made of it, and waits to be
   written to if and only if its request is complete.
   */
  lemma ReadBrings(s: Servers, block: bool, idx: nat, x: World, y: World, broken: bool)
    requires Agree(s, x.v) && |s.polls| <= idx < |x.v.polls| && Asks(x.v.polls[idx])
    requires x.v.polls[idx].events == PollIn && Outcome(|s.polls|, block, idx, x, y, broken)
    ensures !broken && y.log.descriptors == x.log.descriptors && idx < |s.polls| + |x.v.clients|
    ensures |y.log.received| == |x.log.received| + 1
    ensures var n, k := y.log.received[|x.log.received|], idx - |s.polls|;
            if n <= 0 then y.log.requests == x.log.requests && IsEnded(x.v, |s.polls|, k, y.v)
            else
              && |y.log.requests| == |x.log.requests| + 1
              && var c := y.log.requests[|x.log.requests|];
              && y.v.clients == x.v.clients[k := c] && |y.v.polls| == |x.v.polls|
              && (y.v.polls[idx].events == PollOut <==> c.allRecv)
              && y.v.polls == x.v.polls[idx := y.v.polls[idx]]
  {
    hide Agree, AfterClose, BookAfterClose;
    AgreeSizes(s, x.v);
    CloseEnds(s, x.v, idx - |s.polls|);
  }

  /** A failed entry: a connection ends and a server stays; the system is asked for nothing. */
  lemma FailureEnds(s: Servers, block: bool, idx: nat, x: World, y: World, broken: bool)
    requires Agree(s, x.v) && idx < |x.v.polls| && x.v.polls[idx].failed
    requires Outcome(|s.polls|, block, idx, x, y, broken)
    ensures !broken && y.log == x.log
    ensures if idx < |s.polls| then y.v == x.v
            else idx - |s.polls| < |x.v.clients| && IsEnded(x.v, |s.polls|, idx - |s.polls|, y.v)
  {
    hide Agree, AfterClose, BookAfterClose;
    AgreeSizes(s, x.v);
    if idx >= |s.polls| {
      CloseEnds(s, x.v, idx - |s.polls|);
    }
  }

  /** The k-th client has had one round: its response is out, and 4096 bytes of its file. */
  ghost predicate IsFurther(v: Vectors, k: nat, w: Vectors) {
    && k < |v.clients| && |w.clients| == |v.clients| && w == v.(clients := v.clients[k := w.clients[k]])
    && var c, d := v.clients[k], w.clients[k];
    && d.stringSent && c == d.(stringSent := c.stringSent, file := c.file)
    && c.file.Open? && |c.file.rest| >= 4096 && d.file == Open(c.file.rest[4096..], false)
  }

  /**
   A round of a client with something to send: while its open file has at least
   4096 bytes left the client goes on, and otherwise the connection ends.
   */
  lemma RoundEnds(s: Servers, v: Vectors, k: nat)
    requires Agree(s, v) && k < |v.clients| && (v.clients[k].stringSent || v.clients[k].response != [])
    ensures AfterWritable(v, |s.polls| + k).Some?
    ensures var file, w := v.clients[k].file, AfterWritable(v, |s.polls| + k).value;
            if file.Open? && !file.eof && |file.rest| >= 4096 then IsFurther(v, k, w)
            else IsEnded(v, |s.polls|, k, w)
  {
    hide Agree, AfterClose, AfterWritable, AfterHandle, AfterTest, IsEnded;
    AgreeSizes(s, v);
    var c := v.clients[k];
    NothingUpdated(v, k, |s.polls| + k);
    RoundIsTest(s, v, k, c);
    WrittenKeeps(c);
    TestOf(s, v, k, Written(c));
    CloseEnds(s, v, k);
  }

  /** The log of what follows an entry of any kind. */
  lemma EntryCalls(s: Servers, blocks: nat, idx: nat, x: World, y: World, broken: bool)
    requires Agree(s, x.v) && AllNamed(s.configs, blocks) && idx < |x.v.polls|
    requires Outcome(|s.polls|, HasBlock(s.configs, blocks, x.v.polls[idx].fd), idx, x, y, broken)
    ensures |y.log.descriptors| == |x.log.descriptors| + if idx < |s.polls| && Asks(x.v.polls[idx]) then 1 else 0
    ensures |y.log.received| == |x.log.received| + if idx >= |s.polls| && Asks(x.v.polls[idx]) then 1 else 0
  {
    hide Agree, HasBlock, AfterClose, BookAfterClose, AfterWritable, BookAfterWritable, Received, AcceptedAs;
    if idx < |s.polls| {
      ServerHasBlock(s, x.v, idx, blocks);
    }
  }

  /** How many calls the log has more once the entries from i on have been handled. */
  ghost predicate Called(ps: seq<PollFd>, i: nat, servers: nat, before: Log, now: Log) {
    && servers <= |ps|
    && |now.descriptors| == |before.descriptors| + Calls(ps, i, servers)
    && |now.received| == |before.received| + Calls(ps, if i < servers then servers else i, |ps|)
  }

  lemma NoneCalled(ps: seq<PollFd>, servers: nat, log: Log)
    requires servers <= |ps|
    ensures Called(ps, |ps|, servers, log, log)
  {
  }

  lemma CalledMore(ps: seq<PollFd>, i: nat, servers: nat, before: Log, now: Log, next: Log)
    requires i < |ps| && Called(ps, i + 1, servers, before, now)
    requires |next.descriptors| == |now.descriptors| + if i < servers && Asks(ps[i]) then 1 else 0
    requires |next.received| == |now.received| + if i >= servers && Asks(ps[i]) then 1 else 0
    ensures Called(ps, i, servers, before, next)
  {
  }
}
