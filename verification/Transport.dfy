/** A plain leg of a session (src/transport/transport.c over src/net): the peer and the
    kernel decide how much each call moves, whether it would block and whether it fails. */
module Transport {
  import opened Core

  /** The calls made on one leg, how the last ones of each kind ended, and whether one failed. */
  datatype Calls = Calls(readCalls: nat, writeCalls: nat, readBlocked: bool, writeBlocked: bool, failed: bool)

  class Leg {
    /** All bytes read from and written to the peer so far. */
    ghost var received: bytes
    ghost var sent: bytes
    /** What each successful read returned. */
    ghost var chunks: seq<bytes>
    /** How often each call was made, whether the last one of its kind would have blocked, and
        whether one failed. */
    ghost var readCalls: nat
    ghost var writeCalls: nat
    ghost var readBlocked: bool
    ghost var writeBlocked: bool
    ghost var failed: bool
    /** The peer could not be connected. */
    ghost var refused: bool

    ghost function History(): Calls
      reads this
    {
      Calls(readCalls, writeCalls, readBlocked, writeBlocked, failed)
    }

    constructor ()
      ensures received == [] && sent == [] && chunks == [] && !refused
      ensures History() == Calls(0, 0, false, false, false)
    {
      received, sent, chunks, readCalls, writeCalls := [], [], [], 0, 0;
      readBlocked, writeBlocked, failed, refused := false, false, false, false;
    }

    method Read(buffer: array<byte>, size: nat) returns (rc: Status, count: nat)
      requires size <= buffer.Length
      modifies this`received, this`chunks, this`readCalls, this`readBlocked, this`failed, buffer
      ensures rc == Ok ==> 0 < count <= size && received == old(received) + buffer[..count]
      ensures rc == Ok ==> chunks == old(chunks) + [buffer[..count]]
      ensures rc != Ok ==> count == 0 && received == old(received) && chunks == old(chunks)
      ensures readCalls == old(readCalls) + 1 && readBlocked == (rc == Again)
      ensures failed == (old(failed) || (rc != Ok && rc != Again))
    {
      var chunk: bytes := *;
      var wouldBlock: bool := *;
      readCalls := readCalls + 1;
      if 0 < |chunk| <= size {
        Copy(buffer, 0, chunk);
        received, chunks, readBlocked := received + chunk, chunks + [chunk], false;
        assert buffer[..|chunk|] == chunk;
        return Ok, |chunk|;
      }
      readBlocked, failed := wouldBlock, failed || !wouldBlock;
      return if wouldBlock then Again else Closed, 0;
    }

    method Write(data: bytes) returns (rc: Status, count: nat)
      modifies this`sent, this`writeCalls, this`writeBlocked, this`failed
      ensures rc == Ok ==> count <= |data| && (data != [] ==> count > 0) && sent == old(sent) + data[..count]
      ensures rc != Ok ==> count == 0 && sent == old(sent)
      ensures writeCalls == old(writeCalls) + 1 && writeBlocked == (rc == Again)
      ensures failed == (old(failed) || (rc != Ok && rc != Again))
    {
      var n: nat := *;
      var wouldBlock: bool := *;
      writeCalls, writeBlocked := writeCalls + 1, false;
      if data == [] {
        assert sent == sent + data[..0];
        return Ok, 0;
      }
      if 0 < n <= |data| {
        sent := sent + data[..n];
        return Ok, n;
      }
      writeBlocked, failed := wouldBlock, failed || !wouldBlock;
      return if wouldBlock then Again else SysError, 0;
    }

    /** Starts a connection and adds it to the event loop.  Connecting may fail, succeed at once
        or take a while; adding it may fail too. */
    method Connect() returns (rc: Status, started: bool, inProgress: bool)
      modifies this`refused
      ensures refused == (old(refused) || rc != Ok)
      ensures rc == Ok ==> started
    {
      started, inProgress := *, *;
      var added: bool := *;
      rc := if !started then SysError else if !added then Invalid else Ok;
      refused := refused || rc != Ok;
    }

    /** Asks how a connection in progress ended. */
    method FinishConnect() returns (rc: Status)
      modifies this`refused
      ensures refused == (old(refused) || rc != Ok)
    {
      var reached: bool := *;
      refused := refused || !reached;
      return if reached then Ok else SysError;
    }
  }
}
