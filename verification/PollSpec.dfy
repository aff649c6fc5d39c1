/**
 The four vectors of server/server.cpp as values: what the handlers of the
 poll loop do to them and to the accounts of the connections.
 */
module PollSpec {
  import opened Options

  type Byte = bv8

  datatype Events = PollIn | PollOut

  /**
   A pollfd. Of `revents`, `failed` stands for POLLERR, POLLHUP and POLLNVAL,
   the others for POLLIN and POLLOUT.
   */
  datatype PollFd = PollFd(fd: int, events: Events, failed: bool, readable: bool, writable: bool)

  /** An input file stream: what is left to read and whether a read has come short. */
  datatype Stream = Closed | Open(rest: seq<Byte>, eof: bool)

  datatype Client = Client(id: int, keepAlive: bool, allRecv: bool, stringSent: bool, response: seq<Byte>, file: Stream)

  datatype ServerConfig = ServerConfig(block: int, fd: int)

  const CHUNK: nat := 4096

  // ----- one connection -----

  /** Client::Client and Client::reset */
  function Fresh(id: int): Client {
    Client(id, false, false, false, [], Closed)
  }

  /** What the file still holds for the client. */
  function Rest(c: Client): seq<Byte> {
    if c.file.Open? && !c.file.eof then c.file.rest else []
  }

  /** What handleClientWrite sends in one round. */
  function Bytes(c: Client): seq<Byte> {
    (if c.stringSent then [] else c.response) + Rest(c)[..Least(|Rest(c)|)]
  }

  function Least(n: nat): (m: nat)
    ensures m <= n && m <= CHUNK && (m == n || m == CHUNK)
  {
    if n < CHUNK then n else CHUNK
  }

  /** The client after a round: a read that comes short closes the file. */
  function Written(c: Client): Client {
    var c' := c.(stringSent := true);
    if c.file.Open? && !c.file.eof then
      if |c.file.rest| < CHUNK then c'.(file := Closed) else c'.(file := Open(c.file.rest[CHUNK..], false))
    else c'
  }

  /** Line 297: nothing is left to send after a round. */
  predicate Finished(c: Client) {
    c.file.Closed? || c.file.eof
  }

  /** What the rounds from here on send, all together. */
  function Pending(c: Client): seq<Byte>
    decreases if c.file.Open? then |c.file.rest| else 0
  {
    if Finished(Written(c)) then Bytes(c) else Bytes(c) + Pending(Written(c))
  }

  /** How many rounds that takes. */
  function Rounds(c: Client): (n: nat)
    ensures n > 0
    decreases if c.file.Open? then |c.file.rest| else 0
  {
    if Finished(Written(c)) then 1 else 1 + Rounds(Written(c))
  }

  /**
   Over its rounds a response is sent once and then the whole file in order, in
   floor(F / 4096) + 1 rounds; without a file, that is one.
   */
  lemma {:induction false} RoundsSendAll(c: Client)
    ensures Pending(c) == (if c.stringSent then [] else c.response) + Rest(c)
    ensures Rounds(c) == |Rest(c)| / CHUNK + 1
    decreases |Rest(c)|
  {
    if !Finished(Written(c)) {
      RoundsSendAll(Written(c));
      assert Rest(c)[..CHUNK] + Rest(c)[CHUNK..] == Rest(c);
    } else {
      assert Rest(c)[..Least(|Rest(c)|)] == Rest(c);
    }
  }

  /** A send of nothing returns 0, which lines 333-337 take for a failure. */
  predicate Mute(c: Client) {
    !c.stringSent && c.response == []
  }

  // ----- the vectors -----

  function Fds(ps: seq<PollFd>): (r: seq<int>)
    ensures |r| == |ps| && forall i :: 0 <= i < |ps| ==> r[i] == ps[i].fd
  {
    seq(|ps|, i requires 0 <= i < |ps| => ps[i].fd)
  }

  function Ids(cs: seq<Client>): (r: seq<int>)
    ensures |r| == |cs| && forall i :: 0 <= i < |cs| ==> r[i] == cs[i].id
  {
    seq(|cs|, i requires 0 <= i < |cs| => cs[i].id)
  }

  function ConfigFds(configs: seq<ServerConfig>): (r: seq<int>)
    ensures |r| == |configs| && forall i :: 0 <= i < |configs| ==> r[i] == configs[i].fd
  {
    seq(|configs|, i requires 0 <= i < |configs| => configs[i].fd)
  }

  /** erase(begin() + i) */
  function Without<T>(s: seq<T>, i: nat): (r: seq<T>)
    requires i < |s|
    ensures |r| == |s| - 1
  {
    s[..i] + s[i + 1..]
  }

  /** Where x is first, or the length: what the loops over the vectors look for. */
  function FirstIndex(s: seq<int>, x: int): (k: nat)
    ensures k <= |s| && (k < |s| ==> s[k] == x) && forall j :: 0 <= j < k ==> s[j] != x
  {
    if s == [] || s[0] == x then 0 else 1 + FirstIndex(s[1..], x)
  }

  lemma FirstIndexIs(s: seq<int>, x: int, k: nat)
    requires k < |s| && s[k] == x && forall j :: 0 <= j < k ==> s[j] != x
    ensures FirstIndex(s, x) == k
  {
  }

  ghost predicate Unique(s: seq<int>) {
    forall i, j :: 0 <= i < j < |s| ==> s[i] != s[j]
  }

  /** The descriptors of the servers that could be opened. */
  function Opened(configs: seq<ServerConfig>): seq<int> {
    if configs == [] then []
    else
      var n := |configs| - 1;
      Opened(configs[..n]) + if configs[n].fd >= 0 then [configs[n].fd] else []
  }

  lemma {:induction false} OpenedHas(configs: seq<ServerConfig>, j: nat)
    requires j < |configs| && configs[j].fd >= 0
    ensures configs[j].fd in Opened(configs)
  {
    var n := |configs| - 1;
    if j < n {
      OpenedHas(configs[..n], j);
    }
  }

  lemma {:induction false} OpenedFrom(configs: seq<ServerConfig>, fd: int) returns (j: nat)
    requires fd in Opened(configs)
    ensures j < |configs| && configs[j].fd == fd >= 0
  {
    var n := |configs| - 1;
    if fd in Opened(configs[..n]) {
      j := OpenedFrom(configs[..n], fd);
    } else {
      j := n;
    }
  }

  /** The clients, the polled entries, and the entries of clients alone; those of servers do not change. */
  datatype Vectors = Vectors(clients: seq<Client>, polls: seq<PollFd>, clientPolls: seq<PollFd>)

  /** The configured servers and their entries. */
  datatype Servers = Servers(configs: seq<ServerConfig>, polls: seq<PollFd>)

  /** The vectors agree: polled are the descriptors of the servers and then those of the clients, all different. */
  ghost predicate Agree(s: Servers, v: Vectors) {
    && Fds(v.polls) == Fds(s.polls) + Fds(v.clientPolls)
    && Ids(v.clients) == Fds(v.clientPolls)
    && Opened(s.configs) == Fds(s.polls)
    && Unique(Fds(v.polls))
    && forall i :: 0 <= i < |v.polls| ==> v.polls[i].fd >= 0
  }

  lemma AgreeSizes(s: Servers, v: Vectors)
    requires Agree(s, v)
    ensures |v.polls| == |s.polls| + |v.clients| && |v.clientPolls| == |v.clients|
  {
    assert |Fds(v.polls)| == |Fds(s.polls)| + |Fds(v.clientPolls)| && |Ids(v.clients)| == |Fds(v.clientPolls)|;
  }

  /** Where the entries of a client are. */
  lemma Places(s: Servers, v: Vectors, k: nat)
    requires Agree(s, v) && k < |v.clients|
    ensures |v.polls| == |s.polls| + |v.clients| && |v.clientPolls| == |v.clients|
    ensures v.polls[|s.polls| + k].fd == v.clientPolls[k].fd == v.clients[k].id
    ensures forall j :: 0 <= j < |v.clients| && j != k ==>
                          v.clients[j].id != v.clients[k].id && v.clientPolls[j].fd != v.clients[k].id
    ensures forall j :: 0 <= j < |s.polls| ==> s.polls[j].fd != v.clients[k].id
  {
    AgreeSizes(s, v);
    var f, n := Fds(v.polls), |s.polls|;
    assert f[n + k] == Fds(v.clientPolls)[k] == Ids(v.clients)[k];
    forall j | 0 <= j < |v.clients| && j != k
      ensures v.clients[j].id != v.clients[k].id && v.clientPolls[j].fd != v.clients[k].id
    {
      assert f[n + j] == Fds(v.clientPolls)[j] == Ids(v.clients)[j];
    }
    forall j | 0 <= j < n
      ensures s.polls[j].fd != v.clients[k].id
    {
      assert f[j] == Fds(s.polls)[j];
    }
  }

  /** The client of a polled entry stands where the entry stands behind the servers. */
  lemma ClientOf(s: Servers, v: Vectors, k: nat)
    requires Agree(s, v) && k < |v.clients|
    ensures |v.polls| == |s.polls| + |v.clients| && |v.clientPolls| == |v.clients|
    ensures v.polls[|s.polls| + k].fd == v.clients[k].id
    ensures FirstIndex(Ids(v.clients), v.clients[k].id) == FirstIndex(Fds(v.clientPolls), v.clients[k].id) == k
  {
    hide Agree;
    Places(s, v, k);
    FirstIndexIs(Ids(v.clients), v.clients[k].id, k);
    FirstIndexIs(Fds(v.clientPolls), v.clients[k].id, k);
  }

  lemma ServerPlace(s: Servers, v: Vectors, idx: nat)
    requires Agree(s, v) && idx < |s.polls|
    ensures idx < |v.polls| && v.polls[idx].fd == s.polls[idx].fd
  {
    assert Fds(v.polls)[idx] == Fds(s.polls)[idx];
  }

  lemma ServerConfigOf(s: Servers, v: Vectors, idx: nat) returns (j: nat)
    requires Agree(s, v) && idx < |s.polls|
    ensures j < |s.configs| && idx < |v.polls| && s.configs[j].fd == v.polls[idx].fd
  {
    ServerPlace(s, v, idx);
    assert Fds(s.polls)[idx] in Opened(s.configs);
    j := OpenedFrom(s.configs, v.polls[idx].fd);
  }

  lemma NotAServer(s: Servers, v: Vectors, k: nat)
    requires Agree(s, v) && k < |v.clients|
    ensures forall j :: 0 <= j < |s.configs| ==> s.configs[j].fd != v.clients[k].id
  {
    Places(s, v, k);
    forall j | 0 <= j < |s.configs|
      ensures s.configs[j].fd != v.clients[k].id
    {
      if s.configs[j].fd >= 0 {
        OpenedHas(s.configs, j);
        var i :| 0 <= i < |s.polls| && Fds(s.polls)[i] == s.configs[j].fd;
      }
    }
  }

  lemma NothingAgrees()
    ensures Agree(Servers([], []), Vectors([], [], []))
  {
  }

  lemma FdsAppend(ps: seq<PollFd>, p: PollFd)
    ensures Fds(ps + [p]) == Fds(ps) + [p.fd]
  {
  }

  /** A server that could be opened, or could not. */
  lemma AgreeServer(s: Servers, ps: seq<PollFd>, config: ServerConfig, p: PollFd)
    requires Agree(s, Vectors([], ps, [])) && p.fd == config.fd
    requires p.fd >= 0 ==> p.fd !in Fds(ps)
    ensures p.fd >= 0 ==> Agree(Servers(s.configs + [config], s.polls + [p]), Vectors([], ps + [p], []))
    ensures p.fd < 0 ==> Agree(Servers(s.configs + [config], s.polls), Vectors([], ps, []))
  {
    assert (s.configs + [config])[..|s.configs|] == s.configs;
    FdsAppend(ps, p);
    FdsAppend(s.polls, p);
  }

  /** A new, different descriptor at the end of three vectors. */
  function Accepting(v: Vectors, p: PollFd): Vectors {
    Vectors(v.clients + [Fresh(p.fd)], v.polls + [p], v.clientPolls + [p])
  }

  lemma AgreeAccept(s: Servers, v: Vectors, p: PollFd)
    requires Agree(s, v) && p.fd >= 0 && p.fd !in Fds(v.polls)
    ensures Agree(s, Accepting(v, p))
  {
    FdsAppend(v.polls, p);
    FdsAppend(v.clientPolls, p);
    assert Ids(v.clients + [Fresh(p.fd)]) == Ids(v.clients) + [p.fd];
    assert Fds(s.polls) + (Fds(v.clientPolls) + [p.fd]) == Fds(s.polls) + Fds(v.clientPolls) + [p.fd];
  }

  /** The k-th client is erased from three vectors. */
  function Erased(v: Vectors, k: nat, i: nat): Vectors
    requires k < |v.clients| && i < |v.polls| && k < |v.clientPolls|
  {
    Vectors(Without(v.clients, k), Without(v.polls, i), Without(v.clientPolls, k))
  }

  lemma AgreeErase(s: Servers, v: Vectors, k: nat)
    requires Agree(s, v) && k < |v.clients| && |v.polls| == |s.polls| + |v.clients| && |v.clientPolls| == |v.clients|
    ensures Agree(s, Erased(v, k, |s.polls| + k))
  {
    hide Fds, Ids, Without, Unique, Opened;
    var i := |s.polls| + k;
    FdsWithout(v.polls, i);
    FdsWithout(v.clientPolls, k);
    IdsWithout(v.clients, k);
    WithoutBehind(Fds(s.polls), Fds(v.clientPolls), k);
    UniqueWithout(Fds(v.polls), i);
  }

  lemma FdsWithout(ps: seq<PollFd>, i: nat)
    requires i < |ps|
    ensures Fds(Without(ps, i)) == Without(Fds(ps), i)
    ensures (forall p :: p in ps ==> p.fd >= 0) ==> forall p :: p in Without(ps, i) ==> p.fd >= 0
  {
  }

  lemma IdsWithout(cs: seq<Client>, k: nat)
    requires k < |cs|
    ensures Ids(Without(cs, k)) == Without(Ids(cs), k)
  {
  }

  lemma WithoutBehind(a: seq<int>, b: seq<int>, k: nat)
    requires k < |b|
    ensures Without(a + b, |a| + k) == a + Without(b, k)
  {
  }

  lemma UniqueWithout(s: seq<int>, i: nat)
    requires Unique(s) && i < |s|
    ensures Unique(Without(s, i))
  {
    var r := Without(s, i);
    forall a, b | 0 <= a < b < |r|
      ensures r[a] != r[b]
    {
      assert r[a] == s[if a < i then a else a + 1] && r[b] == s[if b < i then b else b + 1];
    }
  }

  /** An entry and a client change. */
  function Updated(v: Vectors, k: nat, c: Client, i: nat, p: PollFd): Vectors
    requires k < |v.clients| && i < |v.polls|
  {
    v.(clients := v.clients[k := c], polls := v.polls[i := p])
  }

  lemma AgreeUpdate(s: Servers, v: Vectors, k: nat, c: Client, i: nat, p: PollFd)
    requires Agree(s, v) && i < |v.polls| && k < |v.clients| && p.fd == v.polls[i].fd && c.id == v.clients[k].id
    ensures Agree(s, Updated(v, k, c, i, p))
  {
    assert Fds(v.polls[i := p]) == Fds(v.polls);
    assert Ids(v.clients[k := c]) == Ids(v.clients);
  }

  // ----- the accounts of the connections -----

  /** What has been sent to a client, and what is due to it; the rounds it has had, and those it is to have had. */
  datatype Account = Account(sent: seq<Byte>, due: seq<Byte>, turns: nat, need: nat)

  type Book = map<int, Account>

  /**
   Every client has an account. If the books are `exact`, what has been sent and
   what is pending is what is due, and likewise for the rounds; and a client
   that waits to be written to has something to send.
   */
  ghost predicate Settled(exact: bool, p: PollFd, c: Client, book: Book) {
    && c.id in book
    && (exact ==>
          var a := book[c.id];
          match p.events
          case PollIn => !c.stringSent && a.sent == a.due && a.turns == a.need
          case PollOut =>
            c.allRecv && !Mute(c) && a.sent + Pending(c) == a.due && a.turns + Rounds(c) == a.need)
  }

  ghost predicate AllSettled(exact: bool, servers: nat, v: Vectors, book: Book) {
    && |v.polls| == servers + |v.clients|
    && (forall i :: 0 <= i < servers ==> v.polls[i].events == PollIn)
    && forall k :: 0 <= k < |v.clients| ==> Settled(exact, v.polls[servers + k], v.clients[k], book)
  }

  /** All but the k-th client are settled. */
  ghost predicate OthersSettled(exact: bool, servers: nat, v: Vectors, k: nat, book: Book) {
    && |v.polls| == servers + |v.clients|
    && (forall i :: 0 <= i < servers ==> v.polls[i].events == PollIn)
    && forall j :: 0 <= j < |v.clients| && j != k ==> Settled(exact, v.polls[servers + j], v.clients[j], book)
  }

  lemma SettledLess(exact: bool, less: bool, servers: nat, v: Vectors, book: Book)
    requires AllSettled(exact, servers, v, book) && (less ==> exact)
    ensures AllSettled(less, servers, v, book)
  {
    forall k | 0 <= k < |v.clients|
      ensures Settled(less, v.polls[servers + k], v.clients[k], book)
    {
      assert Settled(exact, v.polls[servers + k], v.clients[k], book);
    }
  }

  lemma SettledAt(exact: bool, servers: nat, v: Vectors, book: Book, k: nat)
    requires AllSettled(exact, servers, v, book) && k < |v.clients|
    ensures |v.polls| == servers + |v.clients| && Settled(exact, v.polls[servers + k], v.clients[k], book)
    ensures OthersSettled(exact, servers, v, k, book)
  {
    hide Settled;
  }

  lemma FreshSettled(exact: bool, p: PollFd, id: int, book: Book)
    requires id in book && p.events == PollIn
    requires exact ==> book[id].sent == book[id].due && book[id].turns == book[id].need
    ensures Settled(exact, p, Fresh(id), book)
  {
  }

  /** What is written down for one client leaves the others settled. */
  lemma OthersStay(s: Servers, exact: bool, v: Vectors, k: nat, book: Book, book': Book)
    requires Agree(s, v) && k < |v.clients| && OthersSettled(exact, |s.polls|, v, k, book)
    requires forall fd :: fd in book && fd != v.clients[k].id ==> fd in book' && book'[fd] == book[fd]
    ensures OthersSettled(exact, |s.polls|, v, k, book')
  {
    hide Agree;
    Places(s, v, k);
    forall j | 0 <= j < |v.clients| && j != k
      ensures Settled(exact, v.polls[|s.polls| + j], v.clients[j], book')
    {
      OneStays(exact, v.polls[|s.polls| + j], v.clients[j], book, book');
    }
  }

  lemma OneStays(exact: bool, p: PollFd, c: Client, book: Book, book': Book)
    requires Settled(exact, p, c, book) && (c.id in book ==> c.id in book' && book'[c.id] == book[c.id])
    ensures Settled(exact, p, c, book')
  {
  }

  lemma UpdateSettles(exact: bool, servers: nat, v: Vectors, k: nat, c: Client, p: PollFd, book: Book)
    requires k < |v.clients| && OthersSettled(exact, servers, v, k, book) && Settled(exact, p, c, book)
    ensures AllSettled(exact, servers, Updated(v, k, c, servers + k, p), book)
  {
    hide Settled;
  }

  lemma UpdateOthers(exact: bool, servers: nat, v: Vectors, k: nat, c: Client, p: PollFd, book: Book)
    requires k < |v.clients| && OthersSettled(exact, servers, v, k, book)
    ensures OthersSettled(exact, servers, Updated(v, k, c, servers + k, p), k, book)
  {
    hide Settled;
  }

  lemma EraseSettles(exact: bool, servers: nat, v: Vectors, k: nat, book: Book)
    requires k < |v.clients| == |v.clientPolls| && OthersSettled(exact, servers, v, k, book)
    ensures AllSettled(exact, servers, Erased(v, k, servers + k), book)
  {
    hide Settled;
    var w := Erased(v, k, servers + k);
    forall j | 0 <= j < |w.clients|
      ensures Settled(exact, w.polls[servers + j], w.clients[j], book)
    {
      var j' := if j < k then j else j + 1;
      assert w.clients[j] == v.clients[j'] && w.polls[servers + j] == v.polls[servers + j'];
    }
  }

  const NEW_ACCOUNT := Account([], [], 0, 0)

  lemma AcceptSettles(s: Servers, exact: bool, v: Vectors, p: PollFd, book: Book)
    requires Agree(s, v) && AllSettled(exact, |s.polls|, v, book) && p.fd !in Fds(v.polls) && p.events == PollIn
    ensures AllSettled(exact, |s.polls|, Accepting(v, p), book[p.fd := NEW_ACCOUNT])
  {
    hide Agree, Settled;
    var book' := book[p.fd := NEW_ACCOUNT];
    forall k | 0 <= k < |v.clients|
      ensures Settled(exact, v.polls[|s.polls| + k], v.clients[k], book')
    {
      Places(s, v, k);
      assert Fds(v.polls)[|s.polls| + k] in Fds(v.polls);
      OneStays(exact, v.polls[|s.polls| + k], v.clients[k], book, book');
    }
    FreshSettled(exact, p, p.fd, book');
  }

  // ----- closeClientConnection -----

  /** The vectors after closeClientConnection(index): gone, or kept alive and reset. */
  function AfterClose(v: Vectors, index: nat): Vectors {
    if index >= |v.polls| then v
    else
      var fd := v.polls[index].fd;
      var k := FirstIndex(Ids(v.clients), fd);
      if k == |v.clients| then v.(polls := Without(v.polls, index))
      else if v.clients[k].keepAlive then
        Updated(v, k, Fresh(v.clients[k].id), index, v.polls[index].(events := PollIn))
      else
        var i := FirstIndex(Fds(v.clientPolls), fd);
        Vectors(Without(v.clients, k), Without(v.polls, index),
                if i < |v.clientPolls| then Without(v.clientPolls, i) else v.clientPolls)
  }

  /** What is due to a client that is cut off but kept alive has ended with what was sent. */
  function BookAfterClose(v: Vectors, index: nat, book: Book): Book {
    if index >= |v.polls| || v.polls[index].fd !in book then book
    else
      var a := book[v.polls[index].fd];
      book[v.polls[index].fd := a.(due := a.sent, need := a.turns)]
  }

  /** closeClientConnection where the vectors agree. */
  lemma CloseOf(s: Servers, v: Vectors, k: nat)
    requires Agree(s, v) && k < |v.clients|
    ensures |v.polls| == |s.polls| + |v.clients| && |v.clientPolls| == |v.clients|
    ensures v.polls[|s.polls| + k].fd == v.clients[k].id
    ensures var i := |s.polls| + k;
            AfterClose(v, i) ==
            if v.clients[k].keepAlive then Updated(v, k, Fresh(v.clients[k].id), i, v.polls[i].(events := PollIn))
            else Erased(v, k, i)
  {
    hide Agree;
    ClientOf(s, v, k);
  }

  lemma CloseAgrees(s: Servers, v: Vectors, k: nat)
    requires Agree(s, v) && k < |v.clients|
    ensures Agree(s, AfterClose(v, |s.polls| + k))
  {
    hide Agree, AfterClose;
    CloseOf(s, v, k);
    var i := |s.polls| + k;
    if v.clients[k].keepAlive {
      AgreeUpdate(s, v, k, Fresh(v.clients[k].id), i, v.polls[i].(events := PollIn));
    } else {
      AgreeErase(s, v, k);
    }
  }

  lemma CloseSettles(s: Servers, exact: bool, v: Vectors, k: nat, book: Book)
    requires Agree(s, v) && k < |v.clients| && OthersSettled(exact, |s.polls|, v, k, book) && v.clients[k].id in book
    ensures var i := |s.polls| + k; AllSettled(exact, |s.polls|, AfterClose(v, i), BookAfterClose(v, i, book))
  {
    hide Agree, AfterClose, AllSettled, Settled, OthersSettled;
    CloseOf(s, v, k);
    var i, c := |s.polls| + k, v.clients[k];
    var book' := BookAfterClose(v, i, book);
    OthersStay(s, exact, v, k, book, book');
    if c.keepAlive {
      var p := v.polls[i].(events := PollIn);
      FreshSettled(exact, p, c.id, book');
      UpdateSettles(exact, |s.polls|, v, k, Fresh(c.id), p, book');
    } else {
      EraseSettles(exact, |s.polls|, v, k, book');
    }
  }

  // ----- a round of writing, lines 283-308 -----

  /** The vectors after handleClientWrite: one round is sent, or the response was empty and the client is closed. */
  function AfterHandle(v: Vectors, idx: nat): Vectors {
    if idx >= |v.polls| then v
    else
      var k := FirstIndex(Ids(v.clients), v.polls[idx].fd);
      if k < |v.clients| && !Mute(v.clients[k]) then v.(clients := v.clients[k := Written(v.clients[k])])
      else AfterClose(v, idx)
  }

  function BookAfterHandle(v: Vectors, idx: nat, book: Book): Book {
    if idx >= |v.polls| || v.polls[idx].fd !in book then book
    else
      var fd := v.polls[idx].fd;
      var k, a := FirstIndex(Ids(v.clients), fd), book[fd];
      if k < |v.clients| && !Mute(v.clients[k]) then
        book[fd := a.(sent := a.sent + Bytes(v.clients[k]), turns := a.turns + 1)]
      else BookAfterClose(v, idx, book)
  }

  /**
   Lines 297-307, on the client that now stands at place k of the vector, which
   is what the reference of line 295 refers to; none, if there is no client.
   */
  function AfterTest(v: Vectors, idx: nat, k: nat): Option<Vectors> {
    if k >= |v.clients| || idx >= |v.polls| then None
    else if !Finished(v.clients[k]) then Some(v)
    else
      var u := v.(polls := v.polls[idx := v.polls[idx].(events := PollIn)]);
      if v.clients[k].keepAlive then Some(u.(clients := u.clients[k := Fresh(u.clients[k].id)]))
      else Some(AfterClose(u, idx))
  }

  function BookAfterTest(v: Vectors, idx: nat, k: nat, book: Book): Book {
    if k >= |v.clients| || idx >= |v.polls| || !Finished(v.clients[k]) || v.clients[k].keepAlive then book
    else BookAfterClose(v.(polls := v.polls[idx := v.polls[idx].(events := PollIn)]), idx, book)
  }

  /** The vectors after the round of a writable entry; none, if the code looks at a client that is gone. */
  function AfterWritable(v: Vectors, idx: nat): Option<Vectors> {
    if idx >= |v.polls| then None
    else AfterTest(AfterHandle(v, idx), idx, FirstIndex(Ids(v.clients), v.polls[idx].fd))
  }

  function BookAfterWritable(v: Vectors, idx: nat, book: Book): Book {
    if idx >= |v.polls| then book
    else
      BookAfterTest(AfterHandle(v, idx), idx, FirstIndex(Ids(v.clients), v.polls[idx].fd),
                    BookAfterHandle(v, idx, book))
  }

  /** handleClientWrite where the vectors agree. */
  lemma HandleOf(s: Servers, v: Vectors, k: nat)
    requires Agree(s, v) && k < |v.clients|
    ensures |v.polls| == |s.polls| + |v.clients| && v.polls[|s.polls| + k].fd == v.clients[k].id
    ensures var c, i := v.clients[k], |s.polls| + k;
            && FirstIndex(Ids(v.clients), c.id) == k
            && AfterHandle(v, i) == (if Mute(c) then AfterClose(v, i) else Updated(v, k, Written(c), i, v.polls[i]))
    ensures Agree(s, AfterHandle(v, |s.polls| + k))
  {
    hide Agree, AfterClose, Written;
    ClientOf(s, v, k);
    CloseAgrees(s, v, k);
    var i := |s.polls| + k;
    assert v.polls[i := v.polls[i]] == v.polls;
    WrittenKeeps(v.clients[k]);
    AgreeUpdate(s, v, k, Written(v.clients[k]), i, v.polls[i]);
  }

  lemma WrittenKeeps(c: Client)
    ensures Written(c).id == c.id && Written(c).keepAlive == c.keepAlive && Written(c).allRecv == c.allRecv
    ensures Written(c).stringSent
  {
  }

  /**
   After the round of a polled client, line 297 looks at that client if and only
   if there was something to send or the connection is kept alive.
   */
  lemma LooksAtItsClient(s: Servers, v: Vectors, k: nat)
    requires Agree(s, v) && k < |v.clients|
    ensures var c, w := v.clients[k], AfterHandle(v, |s.polls| + k).clients;
            k < |w| && w[k].id == c.id <==> c.stringSent || c.response != [] || c.keepAlive
  {
    hide Agree, AfterClose, AfterHandle;
    HandleOf(s, v, k);
    CloseOf(s, v, k);
    WrittenKeeps(v.clients[k]);
    Places(s, v, k);
    assert k + 1 < |v.clients| ==> Without(v.clients, k)[k] == v.clients[k + 1];
  }

  /**
   Otherwise it looks at the next client, whose entry has moved to idx, and
   closes or resets that one if it has no open file; behind the last client there
   is none to look at.
   */
  lemma MuteRound(s: Servers, v: Vectors, k: nat)
    requires Agree(s, v) && k < |v.clients| && Mute(v.clients[k]) && !v.clients[k].keepAlive
    ensures |v.polls| == |s.polls| + |v.clients| && |v.clientPolls| == |v.clients|
    ensures var i := |s.polls| + k;
            var u := Erased(v, k, i);
            AfterWritable(v, i) ==
            if k == |u.clients| then None
            else if !Finished(u.clients[k]) then Some(u)
            else if u.clients[k].keepAlive then
              Some(Updated(u, k, Fresh(u.clients[k].id), i, u.polls[i].(events := PollIn)))
            else Some(Erased(u, k, i))
  {
    hide Agree, AfterClose, AfterHandle;
    var i := |s.polls| + k;
    HandleOf(s, v, k);
    CloseOf(s, v, k);
    var u := Erased(v, k, i);
    if k < |u.clients| && !u.clients[k].keepAlive {
      ClosedNext(s, u, k);
    }
  }

  /** The code looks behind the end of the vector exactly after a round of the last client that has nothing to send. */
  lemma LooksBehindExactly(s: Servers, v: Vectors, k: nat)
    requires Agree(s, v) && k < |v.clients|
    ensures var c := v.clients[k];
            AfterWritable(v, |s.polls| + k) == None <==> Mute(c) && !c.keepAlive && k == |v.clients| - 1
  {
    hide Agree, AfterClose, AfterHandle;
    HandleOf(s, v, k);
    CloseOf(s, v, k);
  }

  lemma ClosedNext(s: Servers, u: Vectors, k: nat)
    requires Agree(s, u) && k < |u.clients| && !u.clients[k].keepAlive
    ensures |u.polls| == |s.polls| + |u.clients| && |u.clientPolls| == |u.clients|
    ensures var i := |s.polls| + k;
            AfterClose(u.(polls := u.polls[i := u.polls[i].(events := PollIn)]), i) == Erased(u, k, i)
  {
    hide Agree, AfterClose;
    AgreeSizes(s, u);
    var i := |s.polls| + k;
    var w := u.(polls := u.polls[i := u.polls[i].(events := PollIn)]);
    assert u.clients[k := u.clients[k]] == u.clients;
    AgreeUpdate(s, u, k, u.clients[k], i, u.polls[i].(events := PollIn));
    CloseOf(s, w, k);
    assert Without(w.polls, i) == Without(u.polls, i);
  }

  /** A server with descriptor 3 has accepted clients 5 and 6. */
  const LISTENING := Servers([ServerConfig(0, 3)], [PollFd(3, PollIn, false, false, false)])

  /** Their requests are complete, and both can be written to; the response of the first is empty. */
  function TwoWaiting(): Vectors {
    var p, q := PollFd(5, PollOut, false, false, true), PollFd(6, PollOut, false, false, true);
    Vectors([Client(5, false, true, false, [], Closed), Client(6, false, true, false, [0x48], Closed)],
            LISTENING.polls + [p, q], [p, q])
  }

  /** Only the first of them is there. */
  function OneWaiting(): Vectors {
    var p := PollFd(5, PollOut, false, false, true);
    Vectors([Client(5, false, true, false, [], Closed)], LISTENING.polls + [p], [p])
  }

  lemma ListeningAgrees()
    ensures Agree(LISTENING, Vectors([], LISTENING.polls, []))
  {
    hide Agree, Fds;
    NothingAgrees();
    assert 3 !in Fds([]);
    AgreeServer(Servers([], []), [], LISTENING.configs[0], LISTENING.polls[0]);
    assert [] + [LISTENING.configs[0]] == LISTENING.configs && [] + [LISTENING.polls[0]] == LISTENING.polls;
  }

  /** A client is accepted and comes to wait. */
  lemma WaitingAgrees(s: Servers, v: Vectors, c: Client, p: PollFd)
    requires Agree(s, v) && c.id == p.fd >= 0 && p.fd !in Fds(v.polls)
    ensures Agree(s, Vectors(v.clients + [c], v.polls + [p], v.clientPolls + [p]))
  {
    hide Agree, Fds;
    AgreeAccept(s, v, p);
    var w, k, i := Accepting(v, p), |v.clients|, |v.polls|;
    AgreeUpdate(s, w, k, c, i, p);
    assert w.clients[k := c] == v.clients + [c] && w.polls[i := p] == w.polls;
  }

  lemma OneAgrees()
    ensures Agree(LISTENING, OneWaiting())
  {
    hide Agree;
    ListeningAgrees();
    var v, w := Vectors([], LISTENING.polls, []), OneWaiting();
    assert forall i :: 0 <= i < |v.polls| ==> Fds(v.polls)[i] == 3;
    WaitingAgrees(LISTENING, v, w.clients[0], w.polls[1]);
    assert [] + [w.clients[0]] == w.clients && [] + [w.polls[1]] == w.clientPolls;
  }

  lemma TwoAgree()
    ensures Agree(LISTENING, TwoWaiting())
  {
    hide Agree;
    OneAgrees();
    var v, w := OneWaiting(), TwoWaiting();
    assert Fds(v.polls)[0] == 3 && Fds(v.polls)[1] == 5;
    WaitingAgrees(LISTENING, v, w.clients[1], w.polls[2]);
    assert v.clients + [w.clients[1]] == w.clients && v.polls + [w.polls[2]] == w.polls;
    assert v.clientPolls + [w.polls[2]] == w.clientPolls;
  }

  /** The round of the client with the empty response cuts off the other one, whose response is not sent. */
  lemma EmptyResponseCutsOffAnother()
    ensures Agree(LISTENING, TwoWaiting())
    ensures AfterWritable(TwoWaiting(), 1) == Some(Vectors([], LISTENING.polls, []))
  {
    hide Agree, AfterWritable;
    TwoAgree();
    MuteRound(LISTENING, TwoWaiting(), 0);
    var v := TwoWaiting();
    assert Without(v.polls, 1) == LISTENING.polls + [v.polls[2]];
    assert Without(LISTENING.polls + [v.polls[2]], 1) == LISTENING.polls;
  }

  /** If it is alone, the code reads behind the end of the vector. */
  lemma EmptyResponseReadsBehind()
    ensures Agree(LISTENING, OneWaiting()) && AfterWritable(OneWaiting(), 1) == None
  {
    hide Agree, AfterWritable;
    OneAgrees();
    MuteRound(LISTENING, OneWaiting(), 0);
  }

  predicate Waiting(v: Vectors, idx: nat) {
    idx < |v.polls| && v.polls[idx].events == PollOut
  }

  /** If there are vectors, they agree, and the books are as exact as said. */
  ghost predicate Keeps(s: Servers, exact: bool, w: Option<Vectors>, book: Book) {
    w.Some? ==> Agree(s, w.value) && AllSettled(exact, |s.polls|, w.value, book)
  }

  lemma TestSettles(s: Servers, exact: bool, v: Vectors, k: nat, book: Book)
    requires Agree(s, v) && k < |v.clients| && OthersSettled(exact, |s.polls|, v, k, book) && v.clients[k].id in book
    requires exact ==>
               if Finished(v.clients[k]) then
                 var a := book[v.clients[k].id]; a.sent == a.due && a.turns == a.need
               else Settled(exact, v.polls[|s.polls| + k], v.clients[k], book)
    ensures var i := |s.polls| + k;
            AfterTest(v, i, k).Some? && Keeps(s, exact, AfterTest(v, i, k), BookAfterTest(v, i, k, book))
  {
    hide Agree, AllSettled, OthersSettled, AfterClose, BookAfterClose, Pending, Rounds;
    AgreeSizes(s, v);
    Places(s, v, k);
    var i, c := |s.polls| + k, v.clients[k];
    var p := v.polls[i].(events := PollIn);
    assert v.clients[k := c] == v.clients && v.polls[i := v.polls[i]] == v.polls;
    if !Finished(c) {
      UpdateSettles(exact, |s.polls|, v, k, c, v.polls[i], book);
    } else if c.keepAlive {
      AgreeUpdate(s, v, k, Fresh(c.id), i, p);
      FreshSettled(exact, p, c.id, book);
      UpdateSettles(exact, |s.polls|, v, k, Fresh(c.id), p, book);
    } else {
      AgreeUpdate(s, v, k, c, i, p);
      UpdateOthers(exact, |s.polls|, v, k, c, p, book);
      var u := Updated(v, k, c, i, p);
      CloseAgrees(s, u, k);
      CloseSettles(s, exact, u, k, book);
    }
  }

  /** A round with something to send keeps the vectors in agreement and the books as exact as they are. */
  lemma RoundSettles(s: Servers, exact: bool, v: Vectors, k: nat, book: Book)
    requires Agree(s, v) && k < |v.clients| && AllSettled(exact, |s.polls|, v, book)
    requires Waiting(v, |s.polls| + k) && !Mute(v.clients[k])
    ensures var i := |s.polls| + k;
            AfterWritable(v, i).Some? && Keeps(s, exact, AfterWritable(v, i), BookAfterWritable(v, i, book))
  {
    hide Agree, AllSettled, OthersSettled, AfterTest, BookAfterTest, AfterHandle;
    HandleOf(s, v, k);
    SettledAt(exact, |s.polls|, v, book, k);
    var c, i := v.clients[k], |s.polls| + k;
    var v', book' := AfterHandle(v, i), BookAfterHandle(v, i, book);
    OthersStay(s, exact, v, k, book, book');
    UpdateOthers(exact, |s.polls|, v, k, Written(c), v.polls[i], book');
    WrittenSettles(exact, v.polls[i], c, book, book');
    TestSettles(s, exact, v', k, book');
  }

  lemma WrittenSettles(exact: bool, p: PollFd, c: Client, book: Book, book': Book)
    requires Settled(exact, p, c, book) && p.events == PollOut
    requires c.id in book && var a := book[c.id];
             c.id in book' && book'[c.id] == a.(sent := a.sent + Bytes(c), turns := a.turns + 1)
    ensures Written(c).id == c.id
    ensures exact ==>
              if Finished(Written(c)) then var b := book'[c.id]; b.sent == b.due && b.turns == b.need
              else Settled(exact, p, Written(c), book')
  {
    hide Bytes;
    if exact && !Finished(Written(c)) {
      var a := book[c.id];
      assert a.sent + Bytes(c) + Pending(Written(c)) == a.sent + (Bytes(c) + Pending(Written(c)));
    }
  }

  /** Also a round with nothing to send keeps the vectors in agreement, if there is a client to look at. */
  lemma RoundAgrees(s: Servers, v: Vectors, k: nat, book: Book)
    requires Agree(s, v) && k < |v.clients| && AllSettled(false, |s.polls|, v, book) && Waiting(v, |s.polls| + k)
    ensures var i := |s.polls| + k; Keeps(s, false, AfterWritable(v, i), BookAfterWritable(v, i, book))
  {
    hide Agree, AllSettled, OthersSettled, AfterTest, BookAfterTest, AfterHandle, AfterClose, BookAfterClose;
    if !Mute(v.clients[k]) {
      RoundSettles(s, false, v, k, book);
    } else {
      var i := |s.polls| + k;
      HandleOf(s, v, k);
      SettledAt(false, |s.polls|, v, book, k);
      CloseSettles(s, false, v, k, book);
      var w := AfterClose(v, i);
      NoneBehind(w, i, k);
      if k < |w.clients| {
        SettledAt(false, |s.polls|, w, BookAfterClose(v, i, book), k);
        TestSettles(s, false, w, k, BookAfterClose(v, i, book));
      }
    }
  }

  lemma NoneBehind(v: Vectors, idx: nat, k: nat)
    ensures k >= |v.clients| ==> AfterTest(v, idx, k) == None
  {
  }

  /** What one round does for a client that has come to c since the vectors were v, and has something to send. */
  ghost predicate OneRound(v: Vectors, k: nat, i: nat, c: Client, book: Book) {
    && k < |v.clients| && i < |v.polls| && c.id in book
    && var u := Updated(v, k, c, i, v.polls[i]);
    && AfterWritable(u, i) ==
       Some(if Finished(Written(c)) then AfterClose(v, i) else Updated(v, k, Written(c), i, v.polls[i]))
    && var book' := BookAfterWritable(u, i, book);
    && c.id in book' && book' == book[c.id := book'[c.id]] && book'[c.id].sent == book[c.id].sent + Bytes(c)
    && if Finished(Written(c)) then Bytes(c) == Pending(c) && Rounds(c) == 1
       else Bytes(c) + Pending(Written(c)) == Pending(c) && Rounds(c) == 1 + Rounds(Written(c))
  }

  lemma PendingUnfolds(c: Client)
    ensures if Finished(Written(c)) then Pending(c) == Bytes(c) && Rounds(c) == 1
            else Pending(c) == Bytes(c) + Pending(Written(c)) && Rounds(c) == 1 + Rounds(Written(c))
  {
    hide Bytes, Written, Finished;
  }

  /** A round of a client with something to send is the test on that client after one Written. */
  lemma RoundIsTest(s: Servers, v: Vectors, k: nat, c: Client)
    requires Agree(s, v) && k < |v.clients| && !Mute(c)
    requires c.id == v.clients[k].id && c.keepAlive == v.clients[k].keepAlive
    ensures |v.polls| == |s.polls| + |v.clients| && v.polls[|s.polls| + k].fd == c.id
    ensures var i := |s.polls| + k;
            var u, w := Updated(v, k, c, i, v.polls[i]), Updated(v, k, Written(c), i, v.polls[i]);
            && Agree(s, u) && Agree(s, w) && FirstIndex(Ids(u.clients), c.id) == k
            && AfterHandle(u, i) == w && AfterWritable(u, i) == AfterTest(w, i, k)
  {
    hide Agree, AfterClose, Mute, AfterTest, AfterHandle;
    Places(s, v, k);
    var i := |s.polls| + k;
    AgreeUpdate(s, v, k, c, i, v.polls[i]);
    var u := Updated(v, k, c, i, v.polls[i]);
    HandleOf(s, u, k);
    WrittenKeeps(c);
    AgreeUpdate(s, v, k, Written(c), i, v.polls[i]);
    var w := Updated(v, k, Written(c), i, v.polls[i]);
    assert u.clients[k := Written(c)] == w.clients && u.polls[i := u.polls[i]] == w.polls;
  }

  /** The test on that client: it stays, or is closed or reset. */
  lemma TestOf(s: Servers, v: Vectors, k: nat, d: Client)
    requires Agree(s, v) && k < |v.clients| && d.id == v.clients[k].id && d.keepAlive == v.clients[k].keepAlive
    requires |v.polls| == |s.polls| + |v.clients|
    ensures var i := |s.polls| + k;
            var w := Updated(v, k, d, i, v.polls[i]);
            AfterTest(w, i, k) == Some(if Finished(d) then AfterClose(v, i) else w)
  {
    hide Agree, AfterClose, Finished;
    var i := |s.polls| + k;
    var p, w := v.polls[i].(events := PollIn), Updated(v, k, d, i, v.polls[i]);
    if Finished(d) {
      CloseOf(s, v, k);
      AgreeUpdate(s, v, k, d, i, v.polls[i]);
      if d.keepAlive {
        assert w.clients[k := Fresh(d.id)] == v.clients[k := Fresh(d.id)] && w.polls[i := p] == v.polls[i := p];
      } else {
        ClosedNext(s, w, k);
        assert Without(w.clients, k) == Without(v.clients, k) && Without(w.polls, i) == Without(v.polls, i);
      }
    }
  }

  lemma RoundBook(v: Vectors, k: nat, i: nat, c: Client, book: Book)
    requires k < |v.clients| && i < |v.polls| && v.polls[i].fd == c.id && c.id in book && !Mute(c)
    requires var u := Updated(v, k, c, i, v.polls[i]); FirstIndex(Ids(u.clients), c.id) == k
    ensures var book' := BookAfterWritable(Updated(v, k, c, i, v.polls[i]), i, book);
            && c.id in book' && book' == book[c.id := book'[c.id]] && book'[c.id].sent == book[c.id].sent + Bytes(c)
  {
    hide Bytes, Mute, AfterClose, FirstIndex, Finished;
  }

  lemma RoundOf(s: Servers, v: Vectors, k: nat, c: Client, book: Book)
    requires Agree(s, v) && k < |v.clients| && !Mute(c) && c.id in book
    requires c.id == v.clients[k].id && c.keepAlive == v.clients[k].keepAlive
    ensures OneRound(v, k, |s.polls| + k, c, book)
  {
    hide Agree, AfterClose, Bytes, Mute, Pending, Rounds, Finished, Written;
    hide AfterWritable, BookAfterWritable, AfterTest;
    PendingUnfolds(c);
    RoundIsTest(s, v, k, c);
    WrittenKeeps(c);
    TestOf(s, v, k, Written(c));
    RoundBook(v, k, |s.polls| + k, c, book);
  }

  // ----- the rest of the sweep -----

  /** What socket and accept have answered, what recv has answered, and what check_request made of clients. */
  datatype Log = Log(descriptors: seq<int>, received: seq<int>, requests: seq<Client>)

  /** No complete request was answered with an empty response. */
  ghost predicate AllAnswered(requests: seq<Client>) {
    forall c :: c in requests && c.allRecv ==> c.response != []
  }

  datatype World = World(v: Vectors, book: Book, log: Log)

  /** Lines 234-240: the first configuration with the descriptor names a server block that exists. */
  predicate HasBlock(configs: seq<ServerConfig>, blocks: nat, fd: int) {
    var j := FirstIndex(ConfigFds(configs), fd);
    j < |configs| && 0 <= configs[j].block < blocks
  }

  function NewEntry(fd: int): PollFd {
    PollFd(fd, PollIn, false, false, false)
  }

  /** A server's entry: without a server block nothing; else accept is called, and a descriptor is one client more. */
  ghost predicate Accepted(block: bool, x: World, y: World) {
    if !block then y == x
    else
      && |y.log.descriptors| == |x.log.descriptors| + 1
      && var fd := y.log.descriptors[|x.log.descriptors|];
      && y.log == x.log.(descriptors := x.log.descriptors + [fd])
      && if fd < 0 then (y.v, y.book) == (x.v, x.book) else AcceptedAs(fd, x, y)
  }

  ghost predicate AcceptedAs(fd: int, x: World, y: World) {
    fd >= 0 && fd !in Fds(x.v.polls) && y.v == Accepting(x.v, NewEntry(fd)) && y.book == x.book[fd := NEW_ACCOUNT]
  }

  /**
   A client's entry: recv is called; without data the connection is closed, and
   with data the client is what check_request makes of it. If its request is
   complete, it waits for POLLOUT, and a response and a file are due.
   */
  ghost predicate Read(idx: nat, x: World, y: World) {
    && |y.log.received| == |x.log.received| + 1
    && var n := y.log.received[|x.log.received|];
    if n <= 0 then
      y == World(AfterClose(x.v, idx), BookAfterClose(x.v, idx, x.book), x.log.(received := x.log.received + [n]))
    else
      && |y.log.requests| == |x.log.requests| + 1
      && var c := y.log.requests[|x.log.requests|];
      && y.log == x.log.(received := x.log.received + [n], requests := x.log.requests + [c])
      && Received(c, idx, x.v, x.book, y.v, y.book)
  }

  ghost predicate Received(c: Client, idx: nat, v: Vectors, book: Book, w: Vectors, book': Book) {
    && idx < |v.polls| && idx >= |v.polls| - |v.clients|
    && var k, p := idx - (|v.polls| - |v.clients|), v.polls[idx];
    && c.id == v.clients[k].id && c.id in book
    && w == Updated(v, k, c, idx, if c.allRecv then p.(events := PollOut) else p)
    && book' == if c.allRecv then Owing(c, book) else book
  }

  /** A response and a file are due to the client. */
  function Owing(c: Client, book: Book): Book
    requires c.id in book
  {
    var a := book[c.id];
    book[c.id := a.(due := a.sent + Pending(c), need := a.turns + Rounds(c))]
  }

  lemma ReceiveSettles(exact: bool, p: PollFd, was: Client, c: Client, book: Book)
    requires Settled(exact, p, was, book) && p.events == PollIn && c.id == was.id && c.stringSent == was.stringSent
    ensures c.id in book
    ensures c.allRecv && c.response != [] ==> Settled(exact, p.(events := PollOut), c, Owing(c, book))
    ensures c.allRecv ==> Settled(false, p.(events := PollOut), c, Owing(c, book))
    ensures !c.allRecv ==> Settled(exact, p, c, book)
  {
  }

  /** What a client that has been read becomes keeps the vectors in agreement and, with a response, the books exact. */
  lemma RequestKeeps(s: Servers, exact: bool, v: Vectors, k: nat, c: Client, book: Book)
    requires Agree(s, v) && AllSettled(exact, |s.polls|, v, book) && k < |v.clients|
    requires |s.polls| + k < |v.polls| && v.polls[|s.polls| + k].events == PollIn
    requires c.id == v.clients[k].id && c.stringSent == v.clients[k].stringSent
    ensures c.id in book
    ensures var i := |s.polls| + k;
            var p := if c.allRecv then v.polls[i].(events := PollOut) else v.polls[i];
            var w, book' := Updated(v, k, c, i, p), if c.allRecv then Owing(c, book) else book;
            && Received(c, i, v, book, w, book') && (!c.allRecv ==> w == v.(clients := v.clients[k := c]))
            && Agree(s, w) && AllSettled(exact && AllAnswered([c]), |s.polls|, w, book')
  {
    hide Agree, AllSettled, Settled, OthersSettled, Owing;
    var i, exact' := |s.polls| + k, exact && AllAnswered([c]);
    var p := if c.allRecv then v.polls[i].(events := PollOut) else v.polls[i];
    AgreeSizes(s, v);
    SettledLess(exact, exact', |s.polls|, v, book);
    SettledAt(exact', |s.polls|, v, book, k);
    ReceiveSettles(exact', v.polls[i], v.clients[k], c, book);
    var book' := if c.allRecv then Owing(c, book) else book;
    assert v.polls[i := v.polls[i]] == v.polls && c in [c];
    OwingOne(c, book);
    OthersStay(s, exact', v, k, book, book');
    UpdateSettles(exact', |s.polls|, v, k, c, p, book');
    AgreeUpdate(s, v, k, c, i, p);
  }

  /** What handling the entry at idx does, by the events reported on it; `broken`, if it looks at a client now gone. */
  ghost predicate Outcome(servers: nat, block: bool, idx: nat, x: World, y: World, broken: bool)
    requires idx < |x.v.polls|
  {
    var p := x.v.polls[idx];
    if p.failed then
      !broken && if idx < servers then y == x
                 else y == World(AfterClose(x.v, idx), BookAfterClose(x.v, idx, x.book), x.log)
    else if p.readable then
      !broken && if idx < servers then Accepted(block, x, y) else Read(idx, x, y)
    else if p.writable then
      match AfterWritable(x.v, idx)
      case None => broken && y.log == x.log
      case Some(w) => !broken && y == World(w, BookAfterWritable(x.v, idx, x.book), x.log)
    else !broken && y == x
  }

  /** Handling an entry leaves the entries below it where and as they are, and the log grows. */
  lemma OutcomeOwnEntry(servers: nat, block: bool, idx: nat, x: World, y: World)
    requires idx < |x.v.polls| && Outcome(servers, block, idx, x, y, false)
    ensures |y.v.polls| >= idx && y.v.polls[..idx] == x.v.polls[..idx]
  {
    hide Written, Bytes, Fresh, Pending, Rounds, Finished, FirstIndex, Ids, Fds, Mute, AfterClose;
    ClosePrefix(x.v, idx);
    WritablePrefix(x.v, idx);
  }

  lemma OutcomeLog(servers: nat, block: bool, idx: nat, x: World, y: World, broken: bool)
    requires idx < |x.v.polls| && Outcome(servers, block, idx, x, y, broken)
    ensures x.log.descriptors <= y.log.descriptors
    ensures x.log.received <= y.log.received && x.log.requests <= y.log.requests
  {
    hide AfterWritable, AfterClose, BookAfterClose, BookAfterWritable, Received, AcceptedAs;
  }

  lemma ClosePrefix(v: Vectors, idx: nat)
    requires idx < |v.polls|
    ensures |AfterClose(v, idx).polls| >= idx && AfterClose(v, idx).polls[..idx] == v.polls[..idx]
  {
    hide FirstIndex, Ids, Fds;
  }

  lemma WritablePrefix(v: Vectors, idx: nat)
    requires idx < |v.polls|
    ensures var w := AfterWritable(v, idx); w.Some? ==> |w.value.polls| >= idx && w.value.polls[..idx] == v.polls[..idx]
  {
    hide FirstIndex, Ids, Fds, AfterClose, Written, Mute, Finished;
    ClosePrefix(v, idx);
    var h := AfterHandle(v, idx);
    if idx < |h.polls| {
      var u := h.(polls := h.polls[idx := h.polls[idx].(events := PollIn)]);
      ClosePrefix(u, idx);
      assert u.polls[..idx] == h.polls[..idx];
    }
  }

  lemma AnsweredBefore(requests: seq<Client>, later: seq<Client>)
    requires requests <= later && AllAnswered(later)
    ensures AllAnswered(requests)
  {
  }

  /** The entries from the last to the first. */
  ghost function Backwards(ps: seq<PollFd>): (r: seq<PollFd>)
    ensures |r| == |ps| && forall i :: 0 <= i < |r| ==> r[i] == ps[|r| - 1 - i]
  {
    if ps == [] then [] else Backwards(ps[1..]) + [ps[0]]
  }

  lemma BackwardsStep(ps: seq<PollFd>, i: nat)
    requires i < |ps|
    ensures Backwards(ps[i..]) == Backwards(ps[i + 1..]) + [ps[i]]
  {
    assert ps[i..] == [ps[i]] + ps[i + 1..];
  }

  lemma SamePrefix(ps: seq<PollFd>, polled: seq<PollFd>, qs: seq<PollFd>, i: nat)
    requires i < |polled| && i < |ps| && ps[..i + 1] == polled[..i + 1]
    requires |qs| >= i && qs[..i] == ps[..i]
    ensures qs[..i] == polled[..i]
  {
    assert ps[..i] == ps[..i + 1][..i] == polled[..i + 1][..i] == polled[..i];
  }

  /** The events that poll reports are errors or those that were asked for. */
  ghost predicate AskedFor(p: PollFd) {
    (p.readable ==> p.events == PollIn) && (p.writable ==> p.events == PollOut)
  }

  /** The entries with the events that poll reports on them. */
  function Reported(ps: seq<PollFd>, revents: seq<PollFd>): (r: seq<PollFd>)
    ensures |r| == |ps|
    ensures forall i :: 0 <= i < |r| ==> r[i].fd == ps[i].fd && r[i].events == ps[i].events && AskedFor(r[i])
  {
    seq(|ps|, i requires 0 <= i < |ps| =>
      if i < |revents| then
        ps[i].(failed := revents[i].failed,
               readable := revents[i].readable && ps[i].events == PollIn,
               writable := revents[i].writable && ps[i].events == PollOut)
      else ps[i].(failed := false, readable := false, writable := false))
  }

  lemma SamePolled(s: Servers, v: Vectors, ps: seq<PollFd>)
    requires Agree(s, v) && |ps| == |v.polls| && forall i :: 0 <= i < |ps| ==> ps[i].fd == v.polls[i].fd
    ensures Fds(ps) == Fds(v.polls) && Agree(s, v.(polls := ps))
  {
    hide Unique;
    assert Fds(ps) == Fds(v.polls);
  }

  lemma ReportedFits(s: Servers, exact: bool, v: Vectors, revents: seq<PollFd>, book: Book)
    requires Agree(s, v) && AllSettled(exact, |s.polls|, v, book)
    ensures var w := v.(polls := Reported(v.polls, revents));
            Fds(w.polls) == Fds(v.polls) && Agree(s, w) && AllSettled(exact, |s.polls|, w, book)
  {
    hide Settled, Reported, Agree, Fds;
    var ps := Reported(v.polls, revents);
    SamePolled(s, v, ps);
    forall k | 0 <= k < |v.clients|
      ensures Settled(exact, ps[|s.polls| + k], v.clients[k], book)
    {
      SettledAgain(exact, v.polls[|s.polls| + k], ps[|s.polls| + k], v.clients[k], book);
    }
  }

  lemma SettledAgain(exact: bool, p: PollFd, q: PollFd, c: Client, book: Book)
    requires Settled(exact, p, c, book) && q.events == p.events
    ensures Settled(exact, q, c, book)
  {
  }

  /** An entry that waits for POLLOUT is that of a client. */
  lemma PollOutPlace(s: Servers, exact: bool, v: Vectors, idx: nat, book: Book)
    requires Agree(s, v) && AllSettled(exact, |s.polls|, v, book) && idx < |v.polls| && v.polls[idx].events == PollOut
    ensures |s.polls| <= idx && |v.polls| == |s.polls| + |v.clients|
    ensures exact ==> !Mute(v.clients[idx - |s.polls|])
  {
    hide Agree;
    assert idx >= |s.polls|;
    assert Settled(exact, v.polls[|s.polls| + (idx - |s.polls|)], v.clients[idx - |s.polls|], book);
  }

  lemma PollOutSpeaks(s: Servers, v: Vectors, idx: nat, book: Book)
    requires Agree(s, v) && AllSettled(true, |s.polls|, v, book) && idx < |v.polls| && v.polls[idx].events == PollOut
    ensures |s.polls| <= idx && |v.polls| == |s.polls| + |v.clients|
    ensures !Mute(v.clients[idx - |s.polls|]) && v.clients[idx - |s.polls|].id in book
  {
    hide Agree, Settled;
    PollOutPlace(s, true, v, idx, book);
    SettledHas(true, |s.polls|, v, book, idx - |s.polls|);
  }

  lemma SettledHas(exact: bool, servers: nat, v: Vectors, book: Book, k: nat)
    requires AllSettled(exact, servers, v, book) && k < |v.clients|
    ensures v.clients[k].id in book
  {
    assert Settled(exact, v.polls[servers + k], v.clients[k], book);
  }

  lemma AllAccounts(exact: bool, servers: nat, v: Vectors, book: Book)
    requires AllSettled(exact, servers, v, book)
    ensures forall c :: c in v.clients ==> c.id in book
  {
    forall c | c in v.clients
      ensures c.id in book
    {
      var k :| 0 <= k < |v.clients| && v.clients[k] == c;
      assert Settled(exact, v.polls[servers + k], v.clients[k], book);
    }
  }

  lemma NoEntry(v: Vectors, idx: nat, book: Book)
    requires idx >= |v.polls|
    ensures AfterHandle(v, idx) == v && BookAfterHandle(v, idx, book) == book
  {
  }

  lemma NoAccount(v: Vectors, idx: nat, book: Book)
    requires idx < |v.polls| && FirstIndex(Ids(v.clients), v.polls[idx].fd) == |v.clients|
    ensures AfterHandle(v, idx) == AfterClose(v, idx)
    ensures BookAfterHandle(v, idx, book) == BookAfterClose(v, idx, book)
  {
  }

  /** handleClientWrite for a client that is there. */
  lemma HandleIs(v: Vectors, idx: nat, book: Book)
    requires idx < |v.polls| && v.polls[idx].fd in book
    requires FirstIndex(Ids(v.clients), v.polls[idx].fd) < |v.clients|
    ensures var fd := v.polls[idx].fd;
            var k, a := FirstIndex(Ids(v.clients), fd), book[fd];
            if Mute(v.clients[k]) then
              AfterHandle(v, idx) == AfterClose(v, idx) && BookAfterHandle(v, idx, book) == BookAfterClose(v, idx, book)
            else
              && AfterHandle(v, idx) == v.(clients := v.clients[k := Written(v.clients[k])])
              && BookAfterHandle(v, idx, book) ==
                 book[fd := a.(sent := a.sent + Bytes(v.clients[k]), turns := a.turns + 1)]
  {
    hide AfterClose, BookAfterClose, FirstIndex, Written, Bytes;
  }

  /** The response, if it has not been sent, and then the next bytes of the file. */
  lemma BytesAre(c: Client, sent: seq<Byte>)
    ensures var d := c.(stringSent := true);
            && Written(d) == Written(c)
            && sent + Bytes(c) ==
               (if c.stringSent then sent else sent + c.response) + Rest(d)[..Least(|Rest(d)|)]
            && (c.stringSent ==> d == c)
  {
  }

  lemma SentMore(sent: seq<Byte>, now: seq<Byte>, later: seq<Byte>)
    ensures sent + now + later == sent + (now + later)
  {
  }

  lemma NothingUpdated(v: Vectors, k: nat, i: nat)
    requires k < |v.clients| && i < |v.polls|
    ensures Updated(v, k, v.clients[k], i, v.polls[i]) == v
  {
    assert v.clients[k := v.clients[k]] == v.clients && v.polls[i := v.polls[i]] == v.polls;
  }

  lemma NothingSent(book: Book, book': Book, fd: int)
    requires fd in book && book' == book[fd := book[fd].(sent := book[fd].sent + [])]
    ensures book' == book
  {
    assert book[fd].sent + [] == book[fd].sent;
  }

  lemma OwingOne(c: Client, book: Book)
    requires c.id in book
    ensures forall fd :: fd in book && fd != c.id ==> fd in Owing(c, book) && Owing(c, book)[fd] == book[fd]
  {
  }

  lemma NoneSwept(ps: seq<PollFd>)
    ensures Backwards(ps[|ps|..]) == []
  {
  }

  lemma PrefixAt(ps: seq<PollFd>, polled: seq<PollFd>, i: nat)
    requires i < |polled| && i < |ps| && ps[..i + 1] == polled[..i + 1]
    ensures ps[i] == polled[i]
  {
    assert ps[i] == ps[..i + 1][i] == polled[..i + 1][i];
  }
}
