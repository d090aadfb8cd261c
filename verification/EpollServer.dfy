/** The handlers of the epoll server on its connection table and task queue. */
module EpollServer {
  import opened Dispatcher

  class Server {
    var connections: map<Fd, Connection>
    var queue: seq<SqlTask>
    ghost var logs: map<Fd, Log>

    constructor ()
      ensures View() == State(map[], map[], [], map[], Free, Unlocked)
    {
      connections, queue, logs := map[], [], map[];
    }

    /** The table and the queue as the protocol sees them between two steps. */
    ghost function View(): State
      reads this
    {
      State(connections, logs, queue, map[], Free, Unlocked)
    }

    ghost predicate Has(fd: Fd)
      reads this
    {
      fd in connections && fd in logs
    }

    /** Appends a task to the pool's queue. */
    method Submit(fd: Fd, sql: string)
      modifies `queue
      ensures queue == old(queue) + [SqlTask(fd, sql)]
    {
      queue := queue + [SqlTask(fd, sql)];
    }

    /** A worker takes the entry at the front of the queue. */
    method NextTask() returns (task: SqlTask)
      requires queue != []
      modifies `queue
      ensures old(queue) == [task] + queue
    {
      task := queue[0];
      queue := queue[1..];
    }

    /** The place of the first semicolon. */
    method FindSemi(s: string) returns (n: nat)
      ensures n == Semi(s)
    {
      n := 0;
      while n < |s|
        invariant n <= |s| && Semi(s) == n + Semi(s[n..])
      {
        if s[n] == ';' { return; }
        assert s[n..][1..] == s[n + 1..];
        n := n + 1;
      }
    }

    /** Cuts the first complete statement off the read buffer and submits it. */
    method DispatchOne(fd: Fd)
      requires Has(fd)
      modifies this
      ensures View() == TakeStatement(old(View()), fd)
    {
      var conn := connections[fd];
      var semi := FindSemi(conn.readBuf);
      if semi < |conn.readBuf| {
        var stmt := conn.readBuf[..semi + 1];
        logs := logs[fd := logs[fd].(dispatched := logs[fd].dispatched + [stmt])];
        connections := connections[fd := conn.(readBuf := conn.readBuf[semi + 1..], busy := true)];
        Submit(fd, stmt);
      }
    }

    /** The first half of a worker's answer: its result is buffered and the connection is idle. */
    method BufferAnswer(fd: Fd, data: string)
      requires Has(fd)
      modifies `connections, `logs
      ensures Has(fd) && View() == Buffer(old(View()), fd, data)
    {
      var conn := connections[fd];
      logs := logs[fd := logs[fd].(responses := logs[fd].responses + [data])];
      connections := connections[fd := conn.(writeBuf := conn.writeBuf + data, busy := false)];
    }

    /** A worker delivers its result; then the connection takes its next statement. A connection that
        is not in the table is ignored. What is stated is the call when the I/O thread does not
        dispatch between its halves. */
    method EnqueueResponse(fd: Fd, data: string)
      requires fd in connections ==> fd in logs
      modifies this
      ensures View() == if old(Has(fd)) then TakeStatement(Buffer(old(View()), fd, data), fd) else old(View())
    {
      if fd !in connections { return; }
      BufferAnswer(fd, data);
      DispatchOne(fd);
    }

    /** Appends what a read returned. */
    method AppendInput(fd: Fd, data: string)
      requires Has(fd)
      modifies `connections, `logs
      ensures Has(fd) && View() == Append(old(View()), fd, data)
    {
      logs := logs[fd := logs[fd].(received := logs[fd].received + data)];
      connections := connections[fd := connections[fd].(readBuf := connections[fd].readBuf + data)];
    }

    /** Drains the socket, which hands over `chunks`, and dispatches at most one statement, unless
        the connection is busy. */
    method HandleRead(fd: Fd, chunks: seq<string>)
      requires Has(fd)
      modifies this
      ensures View() == ReadAll(old(View()), fd, chunks)
    {
      var dispatch := false;
      for i := 0 to |chunks|
        invariant Has(fd) && AppendAll(View(), fd, chunks[i..]) == AppendAll(old(View()), fd, chunks)
        invariant dispatch == (i > 0) && connections[fd].busy == old(connections[fd].busy)
      {
        assert chunks[i..][1..] == chunks[i + 1..];
        AppendInput(fd, chunks[i]);
        dispatch := true;
      }
      assert chunks[|chunks|..] == [];
      if dispatch && !connections[fd].busy {
        DispatchOne(fd);
      }
    }

    /** Writes pending output while the socket accepts it; `results` are what its writes return. As
        much is sent as the writes before the first failure accept, until nothing is left. */
    method HandleWrite(fd: Fd, results: seq<WriteResult>) returns (total: nat)
      requires Has(fd) && connections[fd].writeOff <= |connections[fd].writeBuf|
      modifies this
      ensures total == Min(Accepted(results), |old(connections[fd]).writeBuf| - old(connections[fd]).writeOff)
      ensures View() == Flush(old(View()), fd, total)
    {
      var conn := connections[fd];
      var off := conn.writeOff;
      var k := 0;
      while off < |conn.writeBuf| && k < |results|
        invariant conn.writeOff <= off <= |conn.writeBuf| && k <= |results|
        invariant Min(Accepted(results), |conn.writeBuf| - conn.writeOff) ==
                  off - conn.writeOff + Min(Accepted(results[k..]), |conn.writeBuf| - off)
        decreases |results| - k
      {
        assert results[k..][1..] == results[k + 1..];
        match results[k] {
          case Wrote(n) => off := off + Min(n, |conn.writeBuf| - off);
          case Interrupted =>
          case Failed => break;
        }
        k := k + 1;
      }
      total := off - conn.writeOff;
      logs := logs[fd := logs[fd].(sent := logs[fd].sent + conn.writeBuf[conn.writeOff..off])];
      conn := conn.(writeOff := off);
      if conn.writeOff >= |conn.writeBuf| {
        conn := conn.(writeBuf := "", writeOff := 0);
      }
      connections := connections[fd := conn];
    }
  }

  /** What a write to a socket returns: how much it took, or why it took nothing. */
  datatype WriteResult = Wrote(n: nat) | Interrupted | Failed

  function Min(a: nat, b: nat): nat {
    if a <= b then a else b
  }

  /** What the writes before the first failure would take of an endless output. */
  function Accepted(results: seq<WriteResult>): nat {
    if results == [] || results[0].Failed? then 0
    else (if results[0].Wrote? then results[0].n else 0) + Accepted(results[1..])
  }

  /** Everything pending is sent, and the buffer is empty again, if and only if the writes before the
      first failure accept that much. */
  lemma AllSentIff(st: State, fd: Fd, results: seq<WriteResult>)
    requires Known(st, fd) && st.conns[fd].writeOff <= |st.conns[fd].writeBuf|
    ensures var unsent := |st.conns[fd].writeBuf| - st.conns[fd].writeOff;
            var after := Flush(st, fd, Min(Accepted(results), unsent)).conns[fd];
            && (after.writeBuf == "" && after.writeOff == 0 <==> unsent <= Accepted(results))
            && (Accepted(results) < unsent ==>
                  after.writeBuf[after.writeOff..] == st.conns[fd].writeBuf[st.conns[fd].writeOff + Accepted(results)..])
  {
  }

  /** A call of the write handler is one step of the protocol. */
  lemma WriteIsStep(st: State, fd: Fd, results: seq<WriteResult>)
    requires st.io.Free? && st.mutex.Unlocked? && Known(st, fd) && st.conns[fd].writeOff <= |st.conns[fd].writeBuf|
    ensures var n := Min(Accepted(results), |st.conns[fd].writeBuf| - st.conns[fd].writeOff);
            Enabled(st, HandleWrite(fd, n)) && Next(st, HandleWrite(fd, n)) == Flush(st, fd, n)
  {
  }

  /** What draining a socket does to the state when no worker step comes between. */
  function AppendAll(st: State, fd: Fd, chunks: seq<string>): (r: State)
    requires Known(st, fd)
    ensures Known(r, fd) && r.conns[fd].busy == st.conns[fd].busy
    decreases |chunks|
  {
    if chunks == [] then st else AppendAll(Append(st, fd, chunks[0]), fd, chunks[1..])
  }

  function ReadAll(st: State, fd: Fd, chunks: seq<string>): State
    requires Known(st, fd)
  {
    var read := AppendAll(st, fd, chunks);
    if chunks != [] && !st.conns[fd].busy then TakeStatement(read, fd) else read
  }

  /** The read handler is the protocol's steps one after the other: begin, receive each chunk, end,
      and dispatch if the connection was found idle. */
  function ReceiveAll(st: State, chunks: seq<string>): State
    requires st.io.Reading? && Known(st, st.io.fd) && forall i :: 0 <= i < |chunks| ==> chunks[i] != ""
    decreases |chunks|
  {
    if chunks == [] then st else ReceiveAll(Next(st, Receive(chunks[0])), chunks[1..])
  }

  lemma {:induction false} ReceiveAllIs(st: State, chunks: seq<string>)
    requires st.io.Reading? && Known(st, st.io.fd) && forall i :: 0 <= i < |chunks| ==> chunks[i] != ""
    ensures ReceiveAll(st, chunks) == AppendAll(st.(io := Free), st.io.fd, chunks).(io := Reading(st.io.fd, st.io.dispatch || chunks != []))
    decreases |chunks|
  {
    if chunks != [] {
      var next := Next(st, Receive(chunks[0]));
      ReceiveAllIs(next, chunks[1..]);
      assert next.(io := Free) == Append(st.(io := Free), st.io.fd, chunks[0]);
    }
  }

  /** The last two steps: look at the connection, and dispatch if it was found idle. */
  function EndAndDispatch(r: State): State
    requires Enabled(r, EndRead)
  {
    var e := Next(r, EndRead);
    if e.io.Committed? then Next(e, Dispatch) else e
  }

  lemma EndIs(read: State, fd: Fd, some: bool)
    requires read.io.Free? && Known(read, fd)
    ensures EndAndDispatch(read.(io := Reading(fd, some))) == if some && !read.conns[fd].busy then TakeStatement(read, fd) else read
  {
    var e := Next(read.(io := Reading(fd, some)), EndRead);
    if e.io.Committed? {
      assert TakeStatement(e, fd).(io := Free) == TakeStatement(read, fd);
    } else {
      assert e == read;
    }
  }

  lemma HandlerIsSteps(st: State, fd: Fd, chunks: seq<string>)
    requires Enabled(st, BeginRead(fd)) && forall i :: 0 <= i < |chunks| ==> chunks[i] != ""
    ensures var r := ReceiveAll(Next(st, BeginRead(fd)), chunks);
            Enabled(r, EndRead) && ReadAll(st, fd, chunks) == EndAndDispatch(r)
  {
    var b := Next(st, BeginRead(fd));
    ReceiveAllIs(b, chunks);
    assert b.(io := Free) == st;
    AppendAllIo(st, fd, chunks);
    EndIs(AppendAll(st, fd, chunks), fd, chunks != []);
  }

  lemma {:induction false} AppendAllIo(st: State, fd: Fd, chunks: seq<string>)
    requires Known(st, fd)
    ensures AppendAll(st, fd, chunks).io == st.io
    decreases |chunks|
  {
    if chunks != [] { AppendAllIo(Append(st, fd, chunks[0]), fd, chunks[1..]); }
  }

  /** An answer that the I/O thread does not disturb is the two steps of a worker, one after the
      other. */
  lemma ResponseIsSteps(st: State, w: Worker, data: string)
    requires Enabled(st, Answer(w, data))
    ensures Enabled(Next(st, Answer(w, data)), Redispatch)
    ensures Next(Next(st, Answer(w, data)), Redispatch) ==
            TakeStatement(Buffer(st, st.workers[w].task.fd, data), st.workers[w].task.fd).(workers := st.workers[w := Finishing])
  {
    var fd, mid := st.workers[w].task.fd, Next(st, Answer(w, data));
    assert Released(mid).workers == st.workers[w := Finishing];
    assert Released(mid) == Buffer(st, fd, data).(workers := st.workers[w := Finishing]);
  }
}
