/**
 * Writing to, closing and connecting a TCP netconn: each is started by one API message, goes on
 * whenever the TCP layer reports something or polls, and ends by waking the thread that sent the
 * message. What the TCP layer answers to a call is a parameter of the call.
 */
module NetconnWrite {
  import opened Common

  datatype Err = ERR_OK | ERR_MEM | ERR_BUF | ERR_TIMEOUT | ERR_RTE | ERR_INPROGRESS | ERR_VAL | ERR_WOULDBLOCK
    | ERR_USE | ERR_ALREADY | ERR_ISCONN | ERR_CONN | ERR_IF | ERR_ABRT | ERR_RST | ERR_CLSD | ERR_ARG
  {
    /** ERR_IS_FATAL: ERR_ABRT and all below it */
    predicate IsFatal() { ERR_ABRT? || ERR_RST? || ERR_CLSD? || ERR_ARG? }

    predicate StopsWriting() { IsFatal() || ERR_RTE? }
  }

  datatype Event = SENDPLUS | SENDMINUS | RCVPLUS | ERROR

  datatype ConnState = NETCONN_NONE | NETCONN_WRITE | NETCONN_CONNECT | NETCONN_CLOSE

  /** What an API message asks for. */
  datatype Op = WRITE | SHUT(rx: bool, tx: bool) | CONNECT

  /**
   * The TCP layer during one call: the send buffer before it, what tcp_write and tcp_output
   * return, and whether afterwards buffer and queue are past the low-water marks.
   */
  datatype Tcp = Tcp(sndbuf: nat, wrote: Err, output: Err, roomy: bool)

  /**
   * The TCP layer during one attempt to close: whether it is closed as a whole, because both sides are or were
   * shut down, and what tcp_close or tcp_shutdown returns.
   */
  datatype Closing = Closing(whole: bool, answer: Err)

  /** A write that is over: the data it was given, what tcp_write took of it, and the answer. */
  datatype Written = Written(data: seq<byte>, taken: seq<byte>, blocking: bool, err: Err)

  /** The bytes taken are a prefix of the data; a blocking write succeeds only with all of them. */
  ghost predicate Truthful(w: Written) {
    w.taken <= w.data && (w.err == ERR_OK && w.blocking ==> w.taken == w.data)
  }

  /** The bytes of finished writes, one write after the other. */
  ghost function Stream(log: seq<Written>): seq<byte> {
    if log == [] then [] else Stream(log[..|log| - 1]) + log[|log| - 1].taken
  }

  ghost predicate AllTruthful(log: seq<Written>) {
    forall i :: 0 <= i < |log| ==> Truthful(log[i])
  }

  /** The log has a successful write of the first `len` bytes of this data. */
  ghost predicate Logged(log: seq<Written>, data: seq<byte>, len: nat, blocking: bool) {
    len <= |data| && exists i :: 0 <= i < |log| && log[i] == Written(data, data[..len], blocking, ERR_OK)
  }

  lemma LogGrows(log: seq<Written>, w: Written)
    requires AllTruthful(log) && Truthful(w)
    ensures AllTruthful(log + [w])
    ensures Stream(log + [w]) == Stream(log) + w.taken
    ensures forall data, len, blocking :: Logged(log, data, len, blocking) ==> Logged(log + [w], data, len, blocking)
    ensures w.err == ERR_OK ==> Logged(log + [w], w.data, |w.taken|, w.blocking)
  {
    var more := log + [w];
    assert more[..|log|] == log;
    forall data, len, blocking | Logged(log, data, len, blocking)
      ensures Logged(more, data, len, blocking)
    {
      var i :| 0 <= i < |log| && log[i] == Written(data, data[..len], blocking, ERR_OK);
      assert more[i] == log[i];
    }
    assert more[|log|] == w;
  }

  /** How much one round tries to write. */
  function Chunk(left: nat, available: nat): (len: nat)
    ensures len <= left && len <= available && len <= 0xFFFF
    ensures left > 0 && available > 0 ==> len > 0
  {
    Min(Min(left, 0xFFFF), available)
  }

  /** What tcp_write takes in one round. */
  function Taken(left: nat, tcp: Tcp): nat {
    if tcp.wrote == ERR_OK then Chunk(left, tcp.sndbuf) else 0
  }

  predicate Good(tcp: Tcp) {
    tcp.wrote == ERR_OK && !tcp.output.StopsWriting()
  }

  lemma TakeMore(data: seq<byte>, a: nat, b: nat)
    requires a <= b <= |data|
    ensures data[..a] + data[a..b] == data[..b]
  {
  }

  /** After a round: the answer so far, and whether the caller gets it now. */
  function Verdict(err: Err, all: bool, dontblock: bool, output: Err): (Err, bool) {
    if err == ERR_OK then
      if output.StopsWriting() then (output, true) else (ERR_OK, all || dontblock)
    else if err == ERR_MEM && !dontblock then
      if output.StopsWriting() then (output, true) else (ERR_MEM, false)
    else
      (err, true)
  }

  /** struct api_msg of a write, a shutdown or a connect */
  class ApiMsg {
    const op: Op
    const data: seq<byte>
    const dontblock: bool
    var len: nat
    var pollsLeft: nat
    var err: Err
    /** how often its semaphore was signalled */
    var signals: nat

    constructor (op: Op, data: seq<byte>, dontblock: bool, pollsLeft: nat)
      ensures this.op == op && this.data == data && this.dontblock == dontblock && this.pollsLeft == pollsLeft
      ensures len == |data| && signals == 0
    {
      this.op, this.data, this.dontblock, this.pollsLeft := op, data, dontblock, pollsLeft;
      len, err, signals := |data|, ERR_OK, 0;
    }

    /** Not sent yet; a write has at least one byte. */
    predicate Fresh()
      reads this
    {
      signals == 0 && len == |data| && (op.WRITE? ==> len > 0)
    }
  }

  /** The error after the call of tcp_write in a round, or without one. */
  function Result(msg: ApiMsg, left: nat, tcp: Tcp): Err {
    if Chunk(left, tcp.sndbuf) == 0 && msg.dontblock then ERR_WOULDBLOCK else tcp.wrote
  }

  class Netconn {
    var state: ConnState
    /** conn->pcb.tcp != NULL */
    var alive: bool
    var lastErr: Err
    var currentMsg: ApiMsg?
    var writeOffset: nat
    /** NETCONN_FLAG_IN_NONBLOCKING_CONNECT */
    var nonblocking: bool
    /** NETCONN_FLAG_CHECK_WRITESPACE */
    var checkWritespace: bool
    var events: seq<Event>
    /** the bytes tcp_write accepted on this connection */
    var stream: seq<byte>
    ghost var log: seq<Written>
    ghost var submitted: set<ApiMsg>

    constructor (alive: bool)
      ensures Valid() && this.alive == alive && submitted == {} && log == [] && stream == []
    {
      state, this.alive, lastErr, currentMsg, writeOffset := NETCONN_NONE, alive, ERR_OK, null, 0;
      checkWritespace, nonblocking, events, stream := false, false, [], [];
      log, submitted := [], {};
    }

    /** What the current write has handed over so far. */
    ghost function InProgress(): seq<byte>
      reads this
    {
      if currentMsg != null && writeOffset <= |currentMsg.data| then currentMsg.data[..writeOffset] else []
    }

    /** The stream is the finished writes in order, then the current one's share. */
    ghost predicate StreamOk()
      reads this
    {
      AllTruthful(log) && stream == Stream(log) + InProgress()
    }

    ghost predicate StateOk()
      reads this, currentMsg
    {
      && (state != NETCONN_NONE ==> alive) && (alive && state != NETCONN_WRITE ==> writeOffset == 0)
      && (if state == NETCONN_NONE || (state == NETCONN_CONNECT && nonblocking) then currentMsg == null
          else currentMsg != null && currentMsg in submitted && Current(currentMsg))
      && (nonblocking ==> state == NETCONN_CONNECT)
    }

    /** The message the connection is busy with. */
    ghost predicate Current(m: ApiMsg)
      reads this, m
    {
      && (state == NETCONN_WRITE <==> m.op.WRITE?) && (state == NETCONN_CLOSE <==> m.op.SHUT?)
      && (m.op.WRITE? ==> writeOffset < |m.data| == m.len)
    }

    /** Every caller but the current one has been woken exactly once, and success was no lie. */
    ghost predicate CallersOk()
      reads this, submitted
    {
      forall m :: m in submitted ==>
        if m == currentMsg then m.signals == 0 else m.signals == 1 && Answered(m)
    }

    ghost predicate Answered(m: ApiMsg)
      reads this, m
    {
      m.op.WRITE? && m.err == ERR_OK ==> Logged(log, m.data, m.len, !m.dontblock)
    }

    ghost predicate Valid()
      reads this, submitted, currentMsg
    {
      StateOk() && StreamOk() && CallersOk()
    }

    method SetSafeErr(err: Err)
      modifies this`lastErr
      ensures lastErr == if old(lastErr).IsFatal() then old(lastErr) else err
    {
      if !lastErr.IsFatal() {
        lastErr := err;
      }
    }

    /** The part of lwip_netconn_do_writemore that calls tcp_write. */
    method TryWrite(tcp: Tcp) returns (err: Err, len: nat)
      requires StateOk() && StreamOk() && state == NETCONN_WRITE
      modifies this`stream, this`events, this`checkWritespace
      ensures len == Chunk(currentMsg.len - writeOffset, tcp.sndbuf)
      ensures stream == old(stream) + if err == ERR_OK then currentMsg.data[writeOffset..writeOffset + len] else []
      ensures err == if len == 0 && currentMsg.dontblock then ERR_WOULDBLOCK else tcp.wrote
      ensures var tried := err == ERR_OK || err == ERR_MEM || (len == 0 && currentMsg.dontblock);
              var short := currentMsg.dontblock && len < currentMsg.len;
              && checkWritespace == (old(checkWritespace) || (tried && short))
              && events == old(events) + if tried && (short || !tcp.roomy) then [SENDMINUS] else []
    {
      var msg := currentMsg;
      len := Min(msg.len - writeOffset, 0xFFFF);
      err := tcp.wrote;
      if tcp.sndbuf < len {
        len := tcp.sndbuf;
        if msg.dontblock && len == 0 {
          err := ERR_WOULDBLOCK;
        }
      }
      if err == ERR_OK {
        stream := stream + msg.data[writeOffset..writeOffset + len];
      }
      if err == ERR_OK || err == ERR_MEM || (len == 0 && msg.dontblock) {
        if msg.dontblock && len < msg.len {
          events := events + [SENDMINUS];
          checkWritespace := true;
        } else if !tcp.roomy {
          events := events + [SENDMINUS];
        }
      }
    }

    /** The current write is over: it is on the log with all it handed over, and its caller is awake. */
    twostate predicate Ended(msg: ApiMsg, taken: nat)
      requires taken <= |msg.data|
      reads this, msg
    {
      && state == NETCONN_NONE && currentMsg == null
      && msg.signals == old(msg.signals) + 1
      && log == old(log) + [Written(msg.data, msg.data[..taken], !msg.dontblock, msg.err)]
    }

    /** The end of a write: back to the idle state, and the caller is woken. */
    method Finish(err: Err, len: nat)
      requires currentMsg != null && currentMsg in submitted && currentMsg.op.WRITE? && alive && CallersOk() && !nonblocking
      requires AllTruthful(log)
      requires writeOffset <= |currentMsg.data| && stream == Stream(log) + currentMsg.data[..writeOffset]
      requires err == ERR_OK ==> len == writeOffset && (!currentMsg.dontblock ==> len == |currentMsg.data|)
      modifies this, currentMsg
      ensures Valid() && Ended(old(currentMsg), old(writeOffset)) && old(currentMsg).err == err
      ensures old(currentMsg).len == len && lastErr == if old(lastErr).IsFatal() then old(lastErr) else err
      ensures alive && unchanged(`stream, `submitted)
    {
      hide Logged, Stream, AllTruthful;
      var msg := currentMsg;
      ghost var w := Written(msg.data, msg.data[..writeOffset], !msg.dontblock, err);
      LogGrows(log, w);
      log := log + [w];
      msg.len := len;
      msg.err := err;
      currentMsg := null;
      writeOffset := 0;
      state := NETCONN_NONE;
      SetSafeErr(err);
      msg.signals := msg.signals + 1;
    }

    /** One call of tcp_write, and the offset moves by what it took. */
    method Advance(tcp: Tcp) returns (err: Err)
      requires Valid() && state == NETCONN_WRITE
      modifies this`stream, this`events, this`checkWritespace, this`writeOffset
      ensures writeOffset == old(writeOffset) + Taken(|currentMsg.data| - old(writeOffset), tcp)
      ensures stream == Stream(log) + currentMsg.data[..writeOffset]
      ensures err == Result(currentMsg, |currentMsg.data| - old(writeOffset), tcp)
    {
      hide Logged, Stream, AllTruthful;
      var len;
      err, len := TryWrite(tcp);
      if err == ERR_OK {
        TakeMore(currentMsg.data, writeOffset, writeOffset + len);
        writeOffset := writeOffset + len;
      }
    }

    /**
     * lwip_netconn_do_writemore. Only a blocking write stays current, with data left or when memory ran out, and
     * only while tcp_output reports nothing it cannot recover from.
     */
    method WriteMore(tcp: Tcp)
      requires Valid() && state == NETCONN_WRITE
      modifies this, currentMsg
      ensures Valid() && alive && unchanged(`submitted)
      ensures
        var msg := old(currentMsg);
        var offset := old(writeOffset) + Taken(|msg.data| - old(writeOffset), tcp);
        if currentMsg == null then Ended(msg, offset)
        else currentMsg == msg && state == NETCONN_WRITE && unchanged(`log) && writeOffset == offset
      ensures
        var msg, left := old(currentMsg), |old(currentMsg).data| - old(writeOffset);
        var (answer, finished) := Verdict(Result(msg, left, tcp), Taken(left, tcp) == left, msg.dontblock, tcp.output);
        (currentMsg == null <==> finished) && (finished ==> msg.err == answer)
      ensures
        var msg, left := old(currentMsg), |old(currentMsg).data| - old(writeOffset);
        var len := Min(Min(left, 0xFFFF), tcp.sndbuf);
        var stopped := tcp.output.IsFatal() || tcp.output == ERR_RTE;
        && (currentMsg != null <==>
              !msg.dontblock && !stopped && (tcp.wrote == ERR_MEM || (tcp.wrote == ERR_OK && len < left)))
        && (currentMsg == null ==>
              && msg.err == (if msg.dontblock && len == 0 then ERR_WOULDBLOCK
                             else if (tcp.wrote == ERR_OK || (tcp.wrote == ERR_MEM && !msg.dontblock)) && stopped then tcp.output
                             else tcp.wrote)
              && msg.len == if msg.err == ERR_OK then old(writeOffset) + len else 0)
    {
      hide Logged, Stream, AllTruthful;
      var msg := currentMsg;
      var err := Advance(tcp);
      var (answer, finished) := Verdict(err, writeOffset == msg.len, msg.dontblock, tcp.output);
      if finished {
        Finish(answer, if answer == ERR_OK then writeOffset else 0);
      }
    }

    /** TCPIP_APIMSG_ACK after setting the message's error */
    method Ack(msg: ApiMsg, err: Err)
      requires Valid() && msg !in submitted && msg.signals == 0 && err != ERR_OK
      modifies this`submitted, msg
      ensures Valid() && submitted == old(submitted) + {msg}
      ensures msg.signals == 1 && msg.err == err && msg.len == old(msg.len)
    {
      hide Logged, Stream, AllTruthful;
      msg.err := err;
      msg.signals := 1;
      submitted := submitted + {msg};
    }

    /** The message becomes the current one. */
    method Begin(msg: ApiMsg)
      requires Valid() && state == NETCONN_NONE && alive
      requires msg !in submitted && msg.Fresh() && msg.op.WRITE?
      modifies this`state, this`currentMsg, this`writeOffset, this`submitted
      ensures Valid() && currentMsg == msg && writeOffset == 0 && submitted == old(submitted) + {msg}
    {
      hide Logged, Stream, AllTruthful;
      state := NETCONN_WRITE;
      currentMsg := msg;
      writeOffset := 0;
      submitted := submitted + {msg};
    }

    /** lwip_netconn_do_write */
    method Write(msg: ApiMsg, tcp: Tcp)
      requires Valid() && msg !in submitted && msg.Fresh() && msg.op.WRITE?
      modifies this, msg
      ensures Valid() && submitted == old(submitted) + {msg} && alive == old(alive)
      ensures old(lastErr.IsFatal() || state != NETCONN_NONE || !alive) ==>
        && msg.signals == 1 && unchanged(`log, `stream, `currentMsg, `writeOffset)
        && msg.err == old(if lastErr.IsFatal() then lastErr else if state != NETCONN_NONE then ERR_INPROGRESS else ERR_CONN)
      ensures !old(lastErr.IsFatal() || state != NETCONN_NONE || !alive) ==>
        var taken := Taken(|msg.data|, tcp);
        if currentMsg == null then Ended(msg, taken)
        else currentMsg == msg && unchanged(`log) && writeOffset == taken
    {
      hide Logged, Stream, AllTruthful, StreamOk, CallersOk;
      if lastErr.IsFatal() {
        Ack(msg, lastErr);
      } else if state != NETCONN_NONE {
        Ack(msg, ERR_INPROGRESS);
      } else if alive {
        Begin(msg);
        WriteMore(tcp);
      } else {
        Ack(msg, ERR_CONN);
      }
    }

    /** The select event when buffer and queue are past the low-water marks again. */
    method ReportRoom(tcp: Tcp)
      requires Valid()
      modifies this`checkWritespace, this`events
      ensures Valid() && checkWritespace == (old(checkWritespace) && !(alive && tcp.roomy))
      ensures events == old(events) + if alive && tcp.roomy then [SENDPLUS] else []
    {
      if alive && tcp.roomy {
        checkWritespace := false;
        events := events + [SENDPLUS];
      }
    }

    /** The caller of a close or connect is woken with an answer. */
    method Wake(err: Err)
      requires Valid() && currentMsg != null && !currentMsg.op.WRITE?
      modifies this`state, this`currentMsg, this`lastErr, currentMsg
      ensures Valid() && state == NETCONN_NONE && currentMsg == null
      ensures old(currentMsg).err == err && old(currentMsg).signals == 1
      ensures lastErr == if old(lastErr).IsFatal() then old(lastErr) else err
    {
      hide Logged, Stream, AllTruthful;
      var msg := currentMsg;
      msg.err := err;
      currentMsg, state := null, NETCONN_NONE;
      SetSafeErr(err);
      msg.signals := msg.signals + 1;
    }

    /** An attempt to close both sides closes as a whole. */
    predicate Whole(how: Closing)
      reads this`currentMsg
    {
      currentMsg != null && currentMsg.op == SHUT(true, true) ==> how.whole
    }

    /** lwip_netconn_do_close_internal: only a lack of memory is waited out, and only as long as polls are left. */
    method CloseMore(how: Closing)
      requires Valid() && state == NETCONN_CLOSE && Whole(how)
      modifies this, currentMsg
      ensures Valid() && unchanged(`submitted, `log, `stream)
      ensures
        var msg, waits := old(currentMsg), how.answer == ERR_MEM && old(currentMsg.pollsLeft) > 0;
        var answer := if how.answer == ERR_MEM && how.whole then ERR_OK else how.answer;
        if waits then
          currentMsg == msg && state == NETCONN_CLOSE && alive && events == old(events) && msg.pollsLeft == old(currentMsg.pollsLeft)
        else
          && state == NETCONN_NONE && msg.signals == 1 && msg.err == answer
          && alive == !(answer == ERR_OK && how.whole)
          && events == old(events) + if answer != ERR_OK then [] else
               (if how.whole then [ERROR] else []) + (if msg.op.rx then [RCVPLUS] else []) + (if msg.op.tx then [SENDPLUS] else [])
    {
      hide Logged, Stream, AllTruthful;
      var msg, err := currentMsg, how.answer;
      if err == ERR_MEM {
        if msg.pollsLeft > 0 {
          return;
        }
        if how.whole {
          // tcp_abort
          err := ERR_OK;
        }
      }
      Wake(err);
      if err == ERR_OK {
        if how.whole {
          alive := false;
          events := events + [ERROR];
        }
        if msg.op.rx {
          events := events + [RCVPLUS];
        }
        if msg.op.tx {
          events := events + [SENDPLUS];
        }
      }
    }

    /** The message becomes the current one. */
    method Take(msg: ApiMsg, to: ConnState)
      requires Valid() && state == NETCONN_NONE && alive && msg !in submitted && msg.Fresh()
      requires if msg.op.SHUT? then to == NETCONN_CLOSE else msg.op.CONNECT? && to == NETCONN_CONNECT
      modifies this`state, this`currentMsg, this`submitted
      ensures Valid() && state == to && currentMsg == msg && submitted == old(submitted) + {msg}
    {
      hide Logged, Stream, AllTruthful;
      state, currentMsg, submitted := to, msg, submitted + {msg};
    }

    /** lwip_netconn_do_close. A second close while one is going on fails the code's assertion. */
    method Close(msg: ApiMsg, how: Closing)
      requires Valid() && msg !in submitted && msg.Fresh() && msg.op.SHUT? && (msg.op == SHUT(true, true) ==> how.whole)
      requires state != NETCONN_CLOSE
      modifies this, msg
      ensures Valid() && submitted == old(submitted) + {msg} && unchanged(`log, `stream)
      ensures old(!alive || state != NETCONN_NONE) ==>
                && msg.signals == 1 && unchanged(`state, `currentMsg, `alive, `events)
                && msg.err == if old(state) == NETCONN_WRITE then ERR_INPROGRESS else ERR_CONN
      ensures old(alive && state == NETCONN_NONE) ==> if currentMsg == msg then state == NETCONN_CLOSE else msg.signals == 1
    {
      hide Logged, Stream, AllTruthful, CallersOk, StreamOk;
      if !alive || state == NETCONN_CONNECT {
        Ack(msg, ERR_CONN);
      } else if state == NETCONN_WRITE {
        Ack(msg, ERR_INPROGRESS);
      } else {
        Take(msg, NETCONN_CLOSE);
        CloseMore(how);
      }
    }

    /** lwip_netconn_do_connect; `answer` is what tcp_connect returns */
    method Connect(msg: ApiMsg, answer: Err)
      requires Valid() && msg !in submitted && msg.Fresh() && msg.op.CONNECT?
      modifies this`state, this`currentMsg, this`submitted, this`nonblocking, msg
      ensures Valid() && submitted == old(submitted) + {msg}
      ensures
        var tried := old(alive && state == NETCONN_NONE);
        if tried && answer == ERR_OK then
          && state == NETCONN_CONNECT && nonblocking == msg.dontblock
          && (if msg.dontblock then msg.signals == 1 && msg.err == ERR_INPROGRESS else currentMsg == msg)
        else
          && unchanged(`state, `currentMsg, `nonblocking) && msg.signals == 1
          && msg.err == if tried then answer else if !alive then ERR_CLSD
                        else if old(state) == NETCONN_CONNECT then ERR_ALREADY else ERR_ISCONN
    {
      hide Logged, Stream, AllTruthful;
      if !alive {
        Ack(msg, ERR_CLSD);
      } else if state == NETCONN_CONNECT {
        Ack(msg, ERR_ALREADY);
      } else if state != NETCONN_NONE {
        Ack(msg, ERR_ISCONN);
      } else if answer != ERR_OK {
        Ack(msg, answer);
      } else if msg.dontblock {
        Ack(msg, ERR_INPROGRESS);
        state, nonblocking := NETCONN_CONNECT, true;
      } else {
        Take(msg, NETCONN_CONNECT);
      }
    }

    /** lwip_netconn_do_connected */
    method Connected(err: Err)
      requires Valid() && state == NETCONN_CONNECT
      modifies this, currentMsg
      ensures Valid() && state == NETCONN_NONE && alive && !nonblocking && unchanged(`submitted, `log, `stream)
      ensures old(currentMsg) != null ==> old(currentMsg).signals == 1 && old(currentMsg).err == err
      ensures events == old(events) + [SENDPLUS] && lastErr == if old(lastErr).IsFatal() then old(lastErr) else ERR_OK
    {
      hide Logged, Stream, AllTruthful;
      ghost var before := lastErr;
      if currentMsg != null {
        var msg := currentMsg;
        msg.err := err;
        currentMsg := null;
        msg.signals := msg.signals + 1;
      }
      nonblocking, state := false, NETCONN_NONE;
      SetSafeErr(ERR_OK);
      events := events + [SENDPLUS];
    }

    /** sent_tcp and, when `poll`, poll_tcp: the write or the close goes on */
    method GoOn(tcp: Tcp, how: Closing, poll: bool)
      requires Valid() && alive && Whole(how)
      modifies this, currentMsg
      ensures Valid() && unchanged(`submitted)
      ensures old(state) != NETCONN_WRITE ==> unchanged(`log, `stream)
      ensures old(state) == NETCONN_NONE || old(state) == NETCONN_CONNECT ==> unchanged(`state, `currentMsg) && alive
      ensures old(state) == NETCONN_WRITE ==>
        var msg := old(currentMsg);
        var offset := old(writeOffset) + Taken(|msg.data| - old(writeOffset), tcp);
        alive && if currentMsg == null then Ended(msg, offset)
                 else currentMsg == msg && state == NETCONN_WRITE && unchanged(`log) && writeOffset == offset
      ensures old(state) == NETCONN_WRITE ==>
        var left := |old(currentMsg).data| - old(writeOffset);
        (currentMsg != null <==>
           && !old(currentMsg).dontblock && !tcp.output.StopsWriting()
           && (tcp.wrote == ERR_MEM || (tcp.wrote == ERR_OK && Min(Min(left, 0xFFFF), tcp.sndbuf) < left)))
      ensures old(state) == NETCONN_WRITE && currentMsg == null && !old(currentMsg).dontblock && Good(tcp)
              ==> old(currentMsg).err == ERR_OK
      ensures old(state) == NETCONN_CLOSE ==>
        var msg, left := old(currentMsg), old(if poll && currentMsg.pollsLeft > 0 then currentMsg.pollsLeft - 1 else currentMsg.pollsLeft);
        if how.answer == ERR_MEM && left > 0 then currentMsg == msg && state == NETCONN_CLOSE && msg.pollsLeft == left
        else state == NETCONN_NONE && msg.signals == 1
      ensures alive && tcp.roomy ==> !checkWritespace
    {
      hide Logged, Stream, AllTruthful, StreamOk, CallersOk;
      if state == NETCONN_WRITE {
        WriteMore(tcp);
      } else if state == NETCONN_CLOSE {
        if poll && currentMsg.pollsLeft > 0 {
          Polled();
        }
        CloseMore(how);
      }
      if !poll || checkWritespace {
        ReportRoom(tcp);
      }
    }

    method Polled()
      requires Valid() && state == NETCONN_CLOSE && currentMsg.pollsLeft > 0
      modifies currentMsg`pollsLeft
      ensures Valid() && currentMsg.pollsLeft == old(currentMsg.pollsLeft) - 1
    {
      hide Logged, Stream, AllTruthful;
      currentMsg.pollsLeft := currentMsg.pollsLeft - 1;
    }

    /** The end of err_tcp: the caller that still waits is woken. */
    method WakeLast(err: Err)
      requires !alive && state == NETCONN_NONE && !nonblocking && AllTruthful(log) && CallersOk()
      requires currentMsg != null && currentMsg in submitted
      requires currentMsg.op.WRITE? ==> err != ERR_OK && writeOffset <= |currentMsg.data|
      requires stream == Stream(log) + if currentMsg.op.WRITE? then currentMsg.data[..writeOffset] else []
      modifies this`log, this`currentMsg, this`lastErr, currentMsg
      ensures Valid() && currentMsg == null && lastErr == if old(lastErr).IsFatal() then old(lastErr) else err
      ensures old(currentMsg).signals == 1 && old(currentMsg).err == err
      ensures if old(currentMsg).op.WRITE? then Ended(old(currentMsg), writeOffset) else log == old(log)
    {
      hide Logged, Stream, AllTruthful;
      var msg := currentMsg;
      if msg.op.WRITE? {
        ghost var w := Written(msg.data, msg.data[..writeOffset], !msg.dontblock, err);
        LogGrows(log, w);
        log := log + [w];
      }
      msg.err := err;
      currentMsg := null;
      SetSafeErr(err);
      msg.signals := msg.signals + 1;
    }

    /** err_tcp: the connection is gone. A close that is going on has reached its goal. */
    method Died(err: Err)
      requires Valid() && alive && err.IsFatal()
      modifies this, currentMsg
      ensures Valid() && !alive && state == NETCONN_NONE && currentMsg == null && unchanged(`submitted, `stream)
      ensures lastErr == if old(state) != NETCONN_CLOSE then err else if old(lastErr).IsFatal() then old(lastErr) else ERR_OK
      ensures events == old(events) + [ERROR, RCVPLUS, SENDPLUS]
      ensures old(currentMsg) != null ==>
                old(currentMsg).signals == 1 && old(currentMsg).err == if old(state) == NETCONN_CLOSE then ERR_OK else err
      ensures if old(state) == NETCONN_WRITE then Ended(old(currentMsg), old(writeOffset)) else unchanged(`log)
    {
      hide Logged, Stream, AllTruthful;
      alive := false;
      var closing := state == NETCONN_CLOSE;
      state, nonblocking := NETCONN_NONE, false;
      if closing {
        SetSafeErr(ERR_OK);
      } else {
        lastErr := err;
      }
      events := events + [ERROR, RCVPLUS, SENDPLUS];
      if currentMsg != null {
        WakeLast(if closing then ERR_OK else err);
      }
    }
  }

  /** What can happen to a connection; callbacks come only while it has a pcb. */
  datatype Step =
    | Call(msg: ApiMsg, tcp: Tcp, how: Closing, answer: Err)
    | Sent(tcp: Tcp, how: Closing)
    | Poll(tcp: Tcp, how: Closing)
    | Connects(err: Err)
    | Dies(err: Err)

  ghost function Messages(steps: seq<Step>): set<ApiMsg> {
    set s | s in steps && s.Call? :: s.msg
  }

  /** An attempt to close both sides closes as a whole, and err_tcp is called with fatal errors. */
  predicate Sensible(s: Step) {
    && (s.Call? && s.msg.op == SHUT(true, true) ==> s.how.whole)
    && (s.Dies? ==> s.err.IsFatal())
  }

  /** Steps that can still be taken: a message is sent once. */
  ghost predicate Ready(conn: Netconn, steps: seq<Step>)
    reads conn, Messages(steps)
  {
    && (forall i :: 0 <= i < |steps| ==> Sensible(steps[i]))
    && (forall i :: 0 <= i < |steps| && steps[i].Call? ==> steps[i].msg !in conn.submitted && steps[i].msg.Fresh())
    && (forall i, j :: 0 <= i < j < |steps| && steps[i].Call? && steps[j].Call? ==> steps[i].msg != steps[j].msg)
  }

  /** The step meets the code's assertions: no second close while one is going on. */
  predicate Admissible(conn: Netconn, s: Step)
    reads conn
  {
    && (s.Call? && s.msg.op.SHUT? ==> conn.state != NETCONN_CLOSE)
    && (s.Sent? || s.Poll? ==> conn.Whole(s.how))
  }

  method Do(conn: Netconn, s: Step)
    requires conn.Valid() && Sensible(s) && Admissible(conn, s) && (s.Call? ==> s.msg !in conn.submitted && s.msg.Fresh())
    modifies conn, conn.currentMsg, if s.Call? then {s.msg} else {}
    ensures conn.Valid() && conn.submitted == old(conn.submitted) + if s.Call? then {s.msg} else {}
    ensures old(conn.log) <= conn.log
  {
    hide Logged, Stream, AllTruthful, Netconn.StreamOk, Netconn.CallersOk;
    match s
    case Call(msg, tcp, how, answer) =>
      match msg.op {
        case WRITE => conn.Write(msg, tcp);
        case SHUT(_, _) => conn.Close(msg, how);
        case CONNECT => conn.Connect(msg, answer);
      }
    case Sent(tcp, how) => if conn.alive { conn.GoOn(tcp, how, false); }
    case Poll(tcp, how) => if conn.alive { conn.GoOn(tcp, how, true); }
    case Connects(err) => if conn.state == NETCONN_CONNECT { conn.Connected(err); }
    case Dies(err) => if conn.alive { conn.Died(err); }
  }

  /**
   * Over every run: bytes in order and once, callers of writes, closes and connects woken once, and no false
   * success. The run stops at the first step that is not admissible; `done` is how many were taken.
   */
  method Run(conn: Netconn, steps: seq<Step>) returns (done: nat)
    requires conn.Valid() && Ready(conn, steps)
    modifies conn, conn.submitted, Messages(steps)
    ensures done <= |steps| && conn.Valid() && conn.submitted == old(conn.submitted) + Messages(steps[..done])
    ensures old(conn.log) <= conn.log
    ensures done < |steps| ==> !Admissible(conn, steps[done])
    decreases |steps|
  {
    hide Logged, Stream, AllTruthful, Netconn.StreamOk, Netconn.CallersOk;
    done := 0;
    if steps != [] && Admissible(conn, steps[0]) {
      var rest := steps[1..];
      FirstMessage(steps);
      Do(conn, steps[0]);
      done := Run(conn, rest);
      FirstMessage(steps[..done + 1]);
      assert steps[..done + 1][1..] == rest[..done];
      done := done + 1;
    }
  }

  lemma FirstMessage(steps: seq<Step>)
    requires steps != []
    ensures Messages(steps) == Messages(steps[1..]) + if steps[0].Call? then {steps[0].msg} else {}
  {
    assert steps == [steps[0]] + steps[1..];
  }

  /** A blocking write completes: as many rounds as bytes, each with some room, hand over everything. */
  method Drain(conn: Netconn, answers: seq<Tcp>)
    requires conn.Valid() && conn.state == NETCONN_WRITE && !conn.currentMsg.dontblock
    requires forall i :: 0 <= i < |answers| ==> Good(answers[i]) && answers[i].sndbuf > 0
    requires |answers| >= |conn.currentMsg.data| - conn.writeOffset
    modifies conn, conn.currentMsg
    ensures conn.Valid() && conn.currentMsg == null && old(conn.currentMsg).err == ERR_OK
    ensures conn.stream == Stream(old(conn.log)) + old(conn.currentMsg).data
  {
    var i := 0;
    ghost var msg := conn.currentMsg;
    while conn.currentMsg != null
      invariant conn.Valid() && conn.submitted == old(conn.submitted)
      invariant 0 <= i <= |answers|
      invariant conn.currentMsg != null ==>
        conn.currentMsg == msg && conn.state == NETCONN_WRITE && conn.log == old(conn.log) && |answers| - i >= |msg.data| - conn.writeOffset
      invariant conn.currentMsg == null ==>
        msg.err == ERR_OK && conn.stream == Stream(old(conn.log)) + msg.data
      decreases |answers| - i
    {
      conn.GoOn(answers[i], Closing(false, ERR_OK), false);
      i := i + 1;
      if conn.currentMsg == null {
        LastOf(old(conn.log), conn.log[|conn.log| - 1], conn.log);
      }
    }
  }

  /** A close ends, whatever TCP answers: after as many polls as the message allows its caller is awake. */
  method GivesUp(conn: Netconn, polls: seq<Closing>, tcp: Tcp)
    requires conn.Valid() && conn.state == NETCONN_CLOSE && |polls| >= Max(1, conn.currentMsg.pollsLeft)
    requires forall i :: 0 <= i < |polls| ==> conn.Whole(polls[i])
    modifies conn, conn.currentMsg
    ensures conn.Valid() && old(conn.currentMsg).signals == 1
  {
    var i := 0;
    ghost var msg := conn.currentMsg;
    while conn.state == NETCONN_CLOSE
      invariant conn.Valid() && conn.submitted == old(conn.submitted) && 0 <= i <= |polls|
      invariant if conn.state == NETCONN_CLOSE then conn.currentMsg == msg && |polls| - i >= Max(1, msg.pollsLeft) else msg.signals == 1
      decreases |polls| - i
    {
      conn.GoOn(tcp, polls[i], true);
      i := i + 1;
    }
  }

  lemma LastOf(log: seq<Written>, w: Written, more: seq<Written>)
    requires more == log + [w] && AllTruthful(more)
    ensures Stream(more) == Stream(log) + w.taken
    ensures w.err == ERR_OK && w.blocking ==> w.taken == w.data
  {
    assert more[..|log|] == log;
    assert more[|log|] == w;
  }
}
