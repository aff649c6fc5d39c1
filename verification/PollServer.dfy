/**
 The poll loop of server/server.cpp: four vectors that are swept backwards
 while entries come and go. What the operating system answers (new descriptors,
 events, received data) and what the request handler makes of a client is
 arbitrary; a send takes its whole buffer.
 */
module PollServer {
  import opened PollSpec
  import opened PollLaws

  class Server {
    const blocks: nat
    var serverConfigs: seq<ServerConfig>
    var clients: seq<Client>
    var pollfds: seq<PollFd>
    var pollfdsClients: seq<PollFd>
    var pollfdsServers: seq<PollFd>

    /** The accounts of the connections, what the system has answered, and the entries handled. */
    ghost var book: Book
    ghost var log: Log
    ghost var handled: seq<PollFd>

    /** The code has looked at a client behind the end of the vector. Nothing is said of what it does then. */
    var broken: bool

    ghost function Here(): World
      reads this
    {
      World(Vectors(clients, pollfds, pollfdsClients), book, log)
    }

    ghost function Listening(): Servers
      reads this
    {
      Servers(serverConfigs, pollfdsServers)
    }

    /** The vectors agree, every client has an account, and the books are exact or need not be. */
    ghost predicate Sound(exact: bool)
      reads this
    {
      Agree(Listening(), Here().v) && AllSettled(exact, |pollfdsServers|, Here().v, book)
    }

    /** With exact books the code has looked at no client that is gone. */
    ghost predicate Valid(exact: bool)
      reads this
    {
      (exact ==> !broken) && (!broken ==> Sound(exact))
    }

    /** addServerConfig: nothing is open yet. */
    constructor (blocks: nat, configs: seq<ServerConfig>)
      requires forall c :: c in configs ==> c.fd == -1
      ensures serverConfigs == configs && pollfds == [] && clients == [] && pollfdsClients == [] && pollfdsServers == []
      ensures log == Log([], [], []) && handled == [] && !broken
    {
      this.blocks, serverConfigs := blocks, configs;
      clients, pollfds, pollfdsClients, pollfdsServers := [], [], [], [];
      book, log, handled, broken := map[], Log([], [], []), [], false;
    }

    // ----- what the system answers -----

    /** socket and accept: -1, or a descriptor that is not open. */
    method NewDescriptor() returns (fd: int)
      modifies this`log
      ensures fd == -1 || (fd >= 0 && fd !in Fds(pollfds))
      ensures log == old(log).(descriptors := old(log.descriptors) + [fd])
    {
      fd := *;
      if fd < 0 || fd in Fds(pollfds) {
        fd := -1;
      }
      log := log.(descriptors := log.descriptors + [fd]);
    }

    /** recv: some data, none at the end of the stream, or an error */
    method Receive() returns (bytesRead: int, buffer: seq<Byte>)
      modifies this`log
      ensures log == old(log).(received := old(log.received) + [bytesRead])
    {
      bytesRead, buffer := *, *;
      log := log.(received := log.received + [bytesRead]);
    }

    /** send, of a whole buffer; its result is 0 if there is nothing in it. */
    method Send(fd: int, buffer: seq<Byte>) returns (bytesSent: int)
      requires fd in book
      modifies this`book
      ensures bytesSent == |buffer|
      ensures book == old(book)[fd := old(book)[fd].(sent := old(book)[fd].sent + buffer)]
    {
      book := book[fd := book[fd].(sent := book[fd].sent + buffer)];
      bytesSent := |buffer|;
    }

    /** check_request may make anything of a client but give it another descriptor or mark its response as sent. */
    method CheckRequest(client: Client, received: seq<Byte>) returns (c: Client)
      modifies this`log
      ensures log == old(log).(requests := old(log.requests) + [c])
      ensures c.id == client.id && c.stringSent == client.stringSent
    {
      c := *;
      c := c.(id := client.id, stringSent := client.stringSent);
      log := log.(requests := log.requests + [c]);
    }

    /** poll: any events of those asked for, and errors */
    method Poll(ghost exact: bool)
      requires !broken && Valid(exact)
      modifies this`pollfds
      ensures Valid(exact) && Fds(pollfds) == Fds(old(pollfds))
      ensures forall i :: 0 <= i < |pollfds| ==> pollfds[i].events == old(pollfds)[i].events && AskedFor(pollfds[i])
    {
      hide Agree, AllSettled, Reported;
      var revents: seq<PollFd> := *;
      ReportedFits(Listening(), exact, Here().v, revents, book);
      pollfds := Reported(pollfds, revents);
    }

    // ----- the methods of the server -----

    /** initializeServers */
    method InitializeServers()
      requires forall c :: c in serverConfigs ==> c.fd == -1
      requires pollfds == [] && clients == [] && pollfdsClients == [] && pollfdsServers == [] && !broken
      modifies this`serverConfigs, this`pollfds, this`pollfdsServers, this`log
      ensures Valid(true) && |serverConfigs| == |old(serverConfigs)|
      ensures log == old(log).(descriptors := old(log.descriptors) + ConfigFds(serverConfigs))
      ensures forall i :: 0 <= i < |serverConfigs| ==> serverConfigs[i].block == old(serverConfigs)[i].block
    {
      hide Agree, Fds;
      var i := 0;
      NothingAgrees();
      assert serverConfigs[..0] == [] && old(log.descriptors) + [] == old(log.descriptors);
      while i < |serverConfigs|
        invariant 0 <= i <= |serverConfigs| == |old(serverConfigs)|
        invariant forall j :: i <= j < |serverConfigs| ==> serverConfigs[j] == old(serverConfigs)[j]
        invariant forall j :: 0 <= j < i ==> serverConfigs[j].block == old(serverConfigs)[j].block
        invariant log == old(log).(descriptors := old(log.descriptors) + ConfigFds(serverConfigs[..i]))
        invariant Agree(Servers(serverConfigs[..i], pollfdsServers), Vectors([], pollfds, []))
        invariant |pollfds| == |pollfdsServers| && forall p :: p in pollfds ==> p.events == PollIn
      {
        var fd := NewDescriptor();
        ghost var before := Servers(serverConfigs[..i], pollfdsServers);
        var config := serverConfigs[i].(fd := fd);
        serverConfigs := serverConfigs[i := config];
        assert serverConfigs[..i + 1] == before.configs + [config];
        assert ConfigFds(before.configs + [config]) == ConfigFds(before.configs) + [fd];
        AgreeServer(before, pollfds, config, NewEntry(fd));
        if fd >= 0 {
          pollfds := pollfds + [NewEntry(fd)];
          pollfdsServers := pollfdsServers + [NewEntry(fd)];
        }
        i := i + 1;
      }
      assert serverConfigs[..i] == serverConfigs;
    }

    /** getClientIndexByFd */
    method GetClientIndexByFd(fd: int) returns (clientIndex: nat)
      ensures clientIndex == FirstIndex(Ids(clients), fd)
    {
      clientIndex := |clients|;
      var i := 0;
      while i < |clients|
        invariant 0 <= i <= |clients| && forall j :: 0 <= j < i ==> clients[j].id != fd
      {
        if clients[i].id == fd {
          FirstIndexIs(Ids(clients), fd, i);
          return i;
        }
        i := i + 1;
      }
    }

    /** acceptClient, of a connection that is either refused or new */
    method AcceptClient(ghost exact: bool) returns (clientFd: int)
      requires !broken && Valid(exact)
      modifies this`clients, this`pollfds, this`pollfdsClients, this`book, this`log
      ensures Valid(exact) && Accepted(true, old(Here()), Here())
      ensures log.descriptors == old(log.descriptors) + [clientFd]
    {
      hide Agree, AllSettled, Fds;
      clientFd := NewDescriptor();
      if clientFd < 0 {
        return;
      }
      var newPollfd := NewEntry(clientFd);
      AgreeAccept(Listening(), Here().v, newPollfd);
      AcceptSettles(Listening(), exact, Here().v, newPollfd, book);
      clients := clients + [Fresh(clientFd)];
      pollfds := pollfds + [newPollfd];
      pollfdsClients := pollfdsClients + [newPollfd];
      book := book[clientFd := NEW_ACCOUNT];
    }

    /** closeClientConnection, in any state */
    method CloseClientConnection(index: nat)
      modifies this`clients, this`pollfds, this`pollfdsClients, this`book
      ensures Here() == World(AfterClose(old(Here().v), index), BookAfterClose(old(Here().v), index, old(book)), log)
    {
      ghost var v := Here().v;
      if index >= |pollfds| {
        return;
      }
      var clientFd := pollfds[index].fd;
      book := BookAfterClose(v, index, book);
      var clientIndex := GetClientIndexByFd(clientFd);
      if clientIndex >= |clients| {
        pollfds := Without(pollfds, index);
        return;
      }
      if !clients[clientIndex].keepAlive {
        var i := 0;
        while i < |pollfdsClients|
          invariant 0 <= i <= |pollfdsClients|
          invariant Here().v == v && book == BookAfterClose(v, index, old(book))
          invariant forall j :: 0 <= j < i ==> pollfdsClients[j].fd != clientFd
        {
          if pollfdsClients[i].fd == clientFd {
            FirstIndexIs(Fds(v.clientPolls), clientFd, i);
            pollfdsClients := Without(pollfdsClients, i);
            break;
          }
          i := i + 1;
        }
        clients := Without(clients, clientIndex);
        pollfds := Without(pollfds, index);
      } else {
        clients := clients[clientIndex := Fresh(clients[clientIndex].id)];
        pollfds := pollfds[index := pollfds[index].(events := PollIn)];
      }
    }

    /** handleClientWrite, in any state: one round for a client; if its send brings nothing, it is closed. */
    method HandleClientWrite(index: nat)
      requires forall c :: c in clients ==> c.id in book
      modifies this`clients, this`pollfds, this`pollfdsClients, this`book
      ensures Here() == World(AfterHandle(old(Here().v), index), BookAfterHandle(old(Here().v), index, old(book)), log)
    {
      hide AfterClose, BookAfterClose, FirstIndex, AfterHandle, BookAfterHandle, Bytes, Written;
      if index >= |pollfds| {
        NoEntry(Here().v, index, book);
        return;
      }
      var clientFd := pollfds[index].fd;
      var i := GetClientIndexByFd(clientFd);
      if i >= |clients| {
        NoAccount(Here().v, index, book);
        CloseClientConnection(index);
        return;
      }
      ghost var c := clients[i];
      assert c in clients && c.id == Ids(clients)[i];
      HandleIs(Here().v, index, book);
      var client := clients[i];
      if !client.stringSent {
        var bytesSent := Send(clientFd, client.response);
        if bytesSent <= 0 {
          NothingSent(old(book), book, clientFd);
          CloseClientConnection(index);
          return;
        }
        client := client.(stringSent := true);
      }
      client := SendChunk(clientFd, client);
      BytesAre(c, old(book)[clientFd].sent);
      book := book[clientFd := book[clientFd].(turns := book[clientFd].turns + 1)];
      clients := clients[i := client];
    }

    /** Lines 341-358: the next 4096 bytes of an open file, or what is left of it; a read that comes short closes it. */
    method SendChunk(clientFd: int, client: Client) returns (c: Client)
      requires clientFd in book && client.stringSent
      modifies this`book
      ensures c == Written(client)
      ensures var a := old(book)[clientFd];
              book == old(book)[clientFd := a.(sent := a.sent + Rest(client)[..Least(|Rest(client)|)])]
    {
      c := client;
      if c.file.Open? && !c.file.eof {
        var bytesRead := Least(|c.file.rest|);
        var buffer := c.file.rest[..bytesRead];
        c := c.(file := Open(c.file.rest[bytesRead..], bytesRead < CHUNK));
        if bytesRead > 0 {
          var bytesSent := Send(clientFd, buffer);
        } else {
          assert book[clientFd].sent + buffer == book[clientFd].sent;
        }
        if c.file.eof {
          c := c.(file := Closed);
        }
      } else {
        assert book[clientFd].sent + [] == book[clientFd].sent;
      }
    }

    /** Lines 283-308: a round, and what follows when nothing is left. */
    method OnWritable(idx: nat, ghost exact: bool)
      requires !broken && Valid(exact) && idx < |pollfds| && pollfds[idx].events == PollOut
      modifies this`clients, this`pollfds, this`pollfdsClients, this`book, this`broken
      ensures Valid(exact)
      ensures match AfterWritable(old(Here().v), idx)
              case None => broken
              case Some(w) => !broken && Here() == World(w, BookAfterWritable(old(Here().v), idx, old(book)), log)
    {
      hide Agree, Settled, AllSettled, AfterClose, BookAfterClose, AfterHandle, BookAfterHandle, Finished;
      ghost var v, s := Here().v, Listening();
      PollOutPlace(s, exact, v, idx, book);
      ghost var k := idx - |pollfdsServers|;
      HandleOf(s, v, k);
      SettledLess(exact, false, |pollfdsServers|, v, book);
      RoundAgrees(s, v, k, book);
      if exact {
        RoundSettles(s, true, v, k, book);
      }
      var i := GetClientIndexByFd(pollfds[idx].fd);
      AllAccounts(exact, |pollfdsServers|, v, book);
      HandleClientWrite(idx);
      AgreeSizes(s, Here().v);
      if i >= |clients| {
        broken := true;
      } else if Finished(clients[i]) {
        pollfds := pollfds[idx := pollfds[idx].(events := PollIn)];
        if !clients[i].keepAlive {
          CloseClientConnection(idx);
        } else {
          clients := clients[i := Fresh(clients[i].id)];
        }
      }
    }

    /** Lines 216-231: an error on an entry closes a client and leaves a server alone. */
    method OnError(idx: nat, ghost exact: bool)
      requires !broken && Valid(exact) && idx < |pollfds|
      modifies this`clients, this`pollfds, this`pollfdsClients, this`book
      ensures Valid(exact)
      ensures idx < |pollfdsServers| ==> Here() == old(Here())
      ensures idx >= |pollfdsServers| ==>
                Here() == World(AfterClose(old(Here().v), idx), BookAfterClose(old(Here().v), idx, old(book)), log)
    {
      hide Agree, AllSettled, AfterClose, BookAfterClose;
      AgreeSizes(Listening(), Here().v);
      var isServer := false;
      if idx >= |pollfdsServers| {
        Places(Listening(), Here().v, idx - |pollfdsServers|);
      } else {
        ServerPlace(Listening(), Here().v, idx);
      }
      var j := 0;
      while j < |pollfdsServers|
        invariant 0 <= j <= |pollfdsServers| && !isServer
        invariant forall i :: 0 <= i < j ==> pollfdsServers[i].fd != pollfds[idx].fd
      {
        if pollfds[idx].fd == pollfdsServers[j].fd {
          isServer := true;
          break;
        }
        j := j + 1;
      }
      if !isServer {
        CloseSound(idx, exact);
        CloseClientConnection(idx);
      }
    }

    lemma CloseSound(idx: nat, exact: bool)
      requires Sound(exact) && |pollfdsServers| <= idx < |pollfds|
      ensures Agree(Listening(), AfterClose(Here().v, idx))
      ensures AllSettled(exact, |pollfdsServers|, AfterClose(Here().v, idx), BookAfterClose(Here().v, idx, book))
    {
      hide Agree, AllSettled, Settled, OthersSettled, AfterClose, BookAfterClose;
      AgreeSizes(Listening(), Here().v);
      var k := idx - |pollfdsServers|;
      CloseAgrees(Listening(), Here().v, k);
      SettledAt(exact, |pollfdsServers|, Here().v, book, k);
      SettledHas(exact, |pollfdsServers|, Here().v, book, k);
      CloseSettles(Listening(), exact, Here().v, k, book);
    }

    /** Lines 232-282: a server accepts; a client is read, and closed when there is nothing to read. */
    method OnReadable(idx: nat, ghost exact: bool)
      requires !broken && Valid(exact) && idx < |pollfds| && pollfds[idx].events == PollIn
      modifies this`clients, this`pollfds, this`pollfdsClients, this`book, this`log
      ensures Valid(exact && AllAnswered(log.requests))
      ensures if idx < |pollfdsServers| then
                Accepted(HasBlock(serverConfigs, blocks, old(pollfds)[idx].fd), old(Here()), Here())
              else Read(idx, old(Here()), Here())
    {
      hide Agree, AllSettled, AfterClose, BookAfterClose, Opened, Received, AcceptedAs;
      AgreeSizes(Listening(), Here().v);
      var isServer := false;
      ghost var its: nat := 0;
      if idx < |pollfdsServers| {
        its := ServerConfigOf(Listening(), Here().v, idx);
      } else {
        Places(Listening(), Here().v, idx - |pollfdsServers|);
        NotAServer(Listening(), Here().v, idx - |pollfdsServers|);
      }
      var j := 0;
      while j < |serverConfigs|
        invariant 0 <= j <= |serverConfigs| && !isServer && Valid(exact) && Here() == old(Here())
        invariant idx < |pollfdsServers| ==> j <= its
        invariant forall i :: 0 <= i < j ==> serverConfigs[i].fd != pollfds[idx].fd
      {
        if pollfds[idx].fd == serverConfigs[j].fd {
          isServer := true;
          FirstIndexIs(ConfigFds(serverConfigs), pollfds[idx].fd, j);
          if 0 <= serverConfigs[j].block < blocks {
            var fd := AcceptClient(exact);
          }
          break;
        }
        j := j + 1;
      }
      if !isServer {
        ReadClient(idx, exact);
      } else {
        Weaker(exact, exact && AllAnswered(log.requests));
      }
    }

    /** Lines 248-281 */
    method ReadClient(idx: nat, ghost exact: bool)
      requires !broken && Valid(exact) && |pollfdsServers| <= idx < |pollfds| && pollfds[idx].events == PollIn
      modifies this`clients, this`pollfds, this`pollfdsClients, this`book, this`log
      ensures Valid(exact && AllAnswered(log.requests))
      ensures Read(idx, old(Here()), Here())
    {
      hide Agree, AllSettled, AfterClose, BookAfterClose, Received;
      var bytesRead, buffer := Receive();
      if bytesRead <= 0 {
        CloseSound(idx, exact);
        CloseClientConnection(idx);
        Weaker(exact, exact && AllAnswered(log.requests));
      } else {
        var client := ProcessRequest(idx, buffer, exact);
        assert client in log.requests;
        Weaker(exact && AllAnswered([client]), exact && AllAnswered(log.requests));
      }
    }

    /** Lines 248-253 and 273-280 */
    method ProcessRequest(idx: nat, buffer: seq<Byte>, ghost exact: bool) returns (client: Client)
      requires !broken && Valid(exact) && |pollfdsServers| <= idx < |pollfds| && pollfds[idx].events == PollIn
      modifies this`clients, this`pollfds, this`book, this`log
      ensures log == old(log).(requests := old(log.requests) + [client])
      ensures Received(client, idx, old(Here().v), old(book), Here().v, book)
      ensures Valid(exact && AllAnswered([client]))
    {
      hide Agree, AllSettled, Owing, Received;
      ghost var v, s, k := Here().v, Listening(), idx - |pollfdsServers|;
      AgreeSizes(s, v);
      ClientOf(s, v, k);
      var clientFd := pollfds[idx].fd;
      var clientIndex := GetClientIndexByFd(clientFd);
      client := CheckRequest(clients[clientIndex], buffer);
      RequestKeeps(s, exact, v, k, client, book);
      clients := clients[clientIndex := client];
      if client.allRecv {
        pollfds := pollfds[idx := pollfds[idx].(events := PollOut)];
        book := Owing(client, book);
      }
    }

    /** The body of the sweep, lines 216-308. */
    method HandleEntry(idx: nat, ghost exact: bool)
      requires !broken && Valid(exact) && idx < |pollfds| && AskedFor(pollfds[idx])
      modifies this`clients, this`pollfds, this`pollfdsClients, this`book, this`log, this`handled, this`broken
      ensures Valid(exact && AllAnswered(log.requests)) && handled == old(handled) + [old(pollfds)[idx]]
      ensures Outcome(|pollfdsServers|, HasBlock(serverConfigs, blocks, old(pollfds)[idx].fd), idx,
                      old(Here()), Here(), broken)
    {
      hide Agree, AllSettled, Accepted, Read, AfterClose, BookAfterClose, AfterWritable, BookAfterWritable, HasBlock;
      handled := handled + [pollfds[idx]];
      if pollfds[idx].failed {
        OnError(idx, exact);
        Weaker(exact, exact && AllAnswered(log.requests));
      } else if pollfds[idx].readable {
        OnReadable(idx, exact);
      } else if pollfds[idx].writable {
        OnWritable(idx, exact);
        Weaker(exact, exact && AllAnswered(log.requests));
      } else {
        Weaker(exact, exact && AllAnswered(log.requests));
      }
    }

    lemma Weaker(exact: bool, less: bool)
      requires Valid(exact) && (less ==> exact)
      ensures Valid(less)
    {
      hide Agree, AllSettled;
      if !broken {
        SettledLess(exact, less, |pollfdsServers|, Here().v, book);
      }
    }

    /**
     The sweep, lines 211-309: every entry that was polled is handled, once, from
     the last to the first, unless the code looks at a client that is gone. Every
     readable entry of a server is one accept, and every one of a client one recv.
     */
    method Sweep(ghost exact: bool)
      requires !broken && Valid(exact) && forall i :: 0 <= i < |pollfds| ==> AskedFor(pollfds[i])
      modifies this`clients, this`pollfds, this`pollfdsClients, this`book, this`log, this`handled, this`broken
      ensures Valid(exact && AllAnswered(log.requests))
      ensures !broken ==> handled == old(handled) + Backwards(old(pollfds))
      ensures old(log.descriptors) <= log.descriptors && old(log.requests) <= log.requests
      ensures !broken && AllNamed(serverConfigs, blocks) ==>
                && |log.descriptors| == |old(log.descriptors)| + Calls(old(pollfds), 0, |pollfdsServers|)
                && |log.received| == |old(log.received)| + Calls(old(pollfds), |pollfdsServers|, |old(pollfds)|)
    {
      hide Agree, AllSettled, Outcome, HasBlock, Backwards, AllAnswered, Calls;
      ghost var polled := pollfds;
      var i := |pollfds| - 1;
      NoneSwept(polled);
      AgreeSizes(Listening(), Here().v);
      NoneCalled(polled, |pollfdsServers|, log);
      Weaker(exact, exact && AllAnswered(log.requests));
      while i >= 0 && !broken
        invariant -1 <= i < |polled| && Valid(exact && AllAnswered(log.requests))
        invariant !broken ==> i < |pollfds| && pollfds[..i + 1] == polled[..i + 1]
        invariant !broken ==> handled == old(handled) + Backwards(polled[i + 1..])
        invariant old(log.descriptors) <= log.descriptors && old(log.requests) <= log.requests
        invariant !broken && AllNamed(serverConfigs, blocks) ==>
                    Called(polled, i + 1, |pollfdsServers|, old(log), log)
        decreases i
      {
        var idx: nat := i;
        if idx < |pollfds| {
          ghost var x, ps, less := Here(), pollfds, exact && AllAnswered(log.requests);
          PrefixAt(ps, polled, i);
          HandleEntry(idx, less);
          ghost var block := HasBlock(serverConfigs, blocks, ps[idx].fd);
          OutcomeLog(|pollfdsServers|, block, idx, x, Here(), broken);
          if !broken && AllNamed(serverConfigs, blocks) {
            EntryCalls(Listening(), blocks, idx, x, Here(), broken);
            CalledMore(polled, i, |pollfdsServers|, old(log), x.log, log);
          }
          if AllAnswered(log.requests) {
            AnsweredBefore(x.log.requests, log.requests);
          }
          if !broken {
            OutcomeOwnEntry(|pollfdsServers|, block, idx, x, Here());
            SamePrefix(ps, polled, pollfds, i);
            BackwardsStep(polled, i);
          }
        }
        i := i - 1;
      }
      assert polled[0..] == polled;
    }

    /**
     The rounds of a connection, one after the other: the response, then the
     whole file, and after floor(F / 4096) + 1 rounds the connection is closed or,
     if it is kept alive, reset.
     */
    method Download(k: nat) returns (rounds: nat)
      requires !broken && Valid(true) && k < |clients| && |pollfds| == |pollfdsServers| + |clients|
      requires pollfds[|pollfdsServers| + k].events == PollOut
      modifies this`clients, this`pollfds, this`pollfdsClients, this`book, this`broken
      ensures !broken && Valid(true) && Here().v == AfterClose(old(Here().v), |pollfdsServers| + k)
      ensures var c := old(clients)[k];
              && c.id in old(book) && c.id in book && book == old(book)[c.id := book[c.id]]
              && book[c.id].sent == old(book)[c.id].sent + (if c.stringSent then [] else c.response) + Rest(c)
              && rounds == |Rest(c)| / CHUNK + 1
    {
      hide Agree, AllSettled, Settled, AfterClose, AfterWritable, BookAfterWritable;
      hide Bytes, Pending, Rounds, Written, Finished, Mute, Updated;
      ghost var v, s, b := Here().v, Listening(), book;
      var idx := |pollfdsServers| + k;
      ClientOf(s, v, k);
      PollOutSpeaks(s, v, idx, book);
      RoundsSendAll(clients[k]);
      ghost var c, fd := clients[k], clients[k].id;
      ghost var total := b[fd].sent + Pending(c);
      NothingUpdated(v, k, idx);
      rounds := 0;
      var finished := false;
      while !finished
        invariant Listening() == s && !broken && Valid(true) && fd in book && book == b[fd := book[fd]]
        invariant c.id == fd && c.keepAlive == v.clients[k].keepAlive && !Mute(c)
        invariant !finished ==> Here().v == Updated(v, k, c, idx, v.polls[idx])
        invariant !finished ==> book[fd].sent + Pending(c) == total && rounds + Rounds(c) == Rounds(v.clients[k])
        invariant finished ==>
                    Here().v == AfterClose(v, idx) && book[fd].sent == total && rounds == Rounds(v.clients[k])
        decreases if finished then 0 else Rounds(c)
      {
        ghost var was := book[fd].sent;
        finished := DownloadRound(idx, v, k, c);
        SentMore(was, Bytes(c), Pending(Written(c)));
        c := Written(c);
        rounds := rounds + 1;
      }
    }

    /** One round of a client that has come to c since the vectors were v. */
    method DownloadRound(idx: nat, ghost v: Vectors, ghost k: nat, ghost c: Client) returns (finished: bool)
      requires !broken && Valid(true) && Agree(Listening(), v) && k < |v.clients| && idx == |pollfdsServers| + k
      requires idx < |v.polls| && v.polls[idx].events == PollOut && Here().v == Updated(v, k, c, idx, v.polls[idx])
      requires c.id == v.clients[k].id && c.keepAlive == v.clients[k].keepAlive && !Mute(c) && c.id in book
      modifies this`clients, this`pollfds, this`pollfdsClients, this`book, this`broken
      ensures !broken && Valid(true) && finished == Finished(Written(c))
      ensures Written(c).id == c.id && Written(c).keepAlive == c.keepAlive && !Mute(Written(c))
      ensures Here().v == if finished then AfterClose(v, idx) else Updated(v, k, Written(c), idx, v.polls[idx])
      ensures c.id in book && book == old(book)[c.id := book[c.id]]
      ensures book[c.id].sent == old(book)[c.id].sent + Bytes(c)
      ensures if finished then Bytes(c) == Pending(c) && Rounds(c) == 1
              else Bytes(c) + Pending(Written(c)) == Pending(c) && Rounds(c) == 1 + Rounds(Written(c))
    {
      hide Agree, AllSettled, Settled, AfterClose, AfterWritable, BookAfterWritable;
      hide Bytes, Pending, Rounds, Written, Finished;
      finished := Finished(Written(clients[idx - |pollfdsServers|]));
      RoundOf(Listening(), v, k, c, book);
      WrittenKeeps(c);
      OnWritable(idx, true);
    }

    /**
     startServer, for any number of rounds and until the code looks at a client
     that is gone: the vectors agree and, as long as no complete request was
     answered with an empty response, the books are exact.
     */
    method StartServer(rounds: nat)
      requires forall c :: c in serverConfigs ==> c.fd == -1
      requires pollfds == [] && clients == [] && pollfdsClients == [] && pollfdsServers == [] && !broken
      requires log == Log([], [], [])
      modifies this
      ensures !broken ==> Agree(Listening(), Here().v)
      ensures AllAnswered(log.requests) ==> !broken && Sound(true)
      ensures ConfigFds(serverConfigs) <= log.descriptors && |serverConfigs| == |old(serverConfigs)|
    {
      hide Agree, AllSettled, AllAnswered;
      InitializeServers();
      ghost var first, n := ConfigFds(serverConfigs), |serverConfigs|;
      Weaker(true, AllAnswered(log.requests));
      var r := 0;
      while r < rounds && !broken
        invariant Valid(AllAnswered(log.requests))
        invariant ConfigFds(serverConfigs) == first <= log.descriptors && |serverConfigs| == n
        decreases rounds - r
      {
        ghost var before, exact := log.requests, AllAnswered(log.requests);
        Poll(exact);
        Sweep(exact);
        if AllAnswered(log.requests) {
          AnsweredBefore(before, log.requests);
        }
        r := r + 1;
      }
    }
  }
}
