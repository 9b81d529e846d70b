/** `write_all`, `duplicate_data_across_fds`, `spit_file_back_out_to_socket` and `handle_packet`
    as one thread runs them, for every way in which the kernel can answer their calls. */
module Files {
  import opened Bytes
  import opened WriteLoop
  import opened CopyLoop
  import opened Sessions

  /** An open descriptor: the file, opened for appending, or a socket, of which `data` is what has
      been sent. The calls on it are numbered and answered by two schedules. */
  class Descriptor {
    const onWrite: Schedule
    const onRead: Schedule
    var data: seq<byte>
    var offset: nat
    var writeCalls: nat
    var readCalls: nat

    constructor (content: seq<byte>, onWrite: Schedule, onRead: Schedule)
      ensures data == content && offset == writeCalls == readCalls == 0
      ensures this.onWrite == onWrite && this.onRead == onRead
    {
      this.onWrite, this.onRead := onWrite, onRead;
      data, offset, writeCalls, readCalls := content, 0, 0, 0;
    }

    /** `write` appends a nonempty part of what it is offered, or fails. */
    method Write(buf: array<byte>, from: nat, count: nat) returns (n: int)
      requires from + count <= buf.Length
      modifies `data, `offset, `writeCalls
      ensures var w := Start(buf[from..from + count]);
              && n == Reply(w, onWrite, old(writeCalls)) && writeCalls == old(writeCalls) + 1
              && data == old(data) + Output(w, n) && offset == if n > 0 then |data| else old(offset)
    {
      n := onWrite(writeCalls);
      if n > count {
        n := count;
      }
      writeCalls := writeCalls + 1;
      if n > 0 {
        data := data + buf[from..from + n];
        offset := |data|;
      }
    }

    /** `read` copies a nonempty part of what follows the offset, or fails, or is at the end. */
    method Read(buf: array<byte>) returns (n: int)
      requires buf.Length == MAX_BUF_SIZE && offset <= |data|
      modifies `offset, `readCalls, buf
      ensures n == ReadReply(data, old(offset), onRead, old(readCalls))
      ensures readCalls == old(readCalls) + 1
      ensures n <= 0 ==> offset == old(offset)
      ensures n > 0 ==> offset == old(offset) + n && buf[..n] == data[old(offset)..old(offset) + n]
    {
      n := ReadReply(data, offset, onRead, readCalls);
      readCalls := readCalls + 1;
      if n < 0 {
        return;
      }
      for k := 0 to n
        modifies buf
        invariant forall m | 0 <= m < k :: buf[m] == data[offset + m]
      {
        buf[k] := data[offset + k];
      }
      offset := offset + n;
    }

    method SeekStart()
      modifies `offset
      ensures offset == 0
    {
      offset := 0;
    }

    method SeekEnd()
      modifies `offset
      ensures offset == |data|
    {
      offset := |data|;
    }
  }

  /** `write_all`: retries until everything is written or 21 calls have failed. */
  method WriteAll(fd: Descriptor, buf: array<byte>, len: nat) returns (res: int)
    requires len <= buf.Length
    modifies fd`data, fd`offset, fd`writeCalls
    ensures var e := WriteOut(buf[..len], fd.onWrite, old(fd.writeCalls));
            && fd.data == old(fd.data) + e.written && fd.writeCalls == e.calls
            && res == if GaveUp(e.state) then -1 else 0
  {
    var bytes_left: nat, pos: nat, fail_count: nat := len, 0, 0;
    ghost var w := Writing(Start(buf[..len]), fd.writeCalls, []);
    ghost var e := Finish(w, fd.onWrite);
    while bytes_left > 0
      invariant pos + bytes_left == len && fail_count <= MAX_FAIL_COUNT
      invariant w.state == WriteState(buf[pos..len], fail_count) && w.calls == fd.writeCalls
      invariant fd.data == old(fd.data) + w.written && Finish(w, fd.onWrite) == e
      decreases bytes_left, MAX_FAIL_COUNT - fail_count
    {
      assert buf[pos..pos + bytes_left] == w.state.left;
      var n := fd.Write(buf, pos, bytes_left);
      Regroup(old(fd.data), w.written, Output(w.state, n));
      w := AfterCall(w, fd.onWrite);
      if n <= 0 {
        fail_count := fail_count + 1;
        if fail_count > MAX_FAIL_COUNT {
          return -1;
        }
      } else {
        bytes_left, pos := bytes_left - n, pos + n;
      }
    }
    res := 0;
  }

  /** The `read` of a round of the copying loop has returned `n`. */
  ghost predicate HasRead(input: Descriptor, buffer: array<byte>, n: int, c: Copying)
    reads input, buffer
  {
    && c.offset <= |input.data| && n == ReadReply(input.data, c.offset, input.onRead, c.nextRead)
    && input.offset == c.offset + (if n > 0 then n else 0) && input.readCalls == c.nextRead + 1
    && (n > 0 ==> n <= buffer.Length && buffer[..n] == input.data[c.offset..c.offset + n])
  }

  /** The first half of a round. */
  method ReadPiece(input: Descriptor, buffer: array<byte>, ghost c: Copying) returns (n: int)
    requires buffer.Length == MAX_BUF_SIZE
    requires input.offset == c.offset <= |input.data| && input.readCalls == c.nextRead
    modifies input`offset, input`readCalls, buffer
    ensures HasRead(input, buffer, n, c)
  {
    n := input.Read(buffer);
  }

  /** The second half of a round. */
  method SendPiece(input: Descriptor, output: Descriptor, buffer: array<byte>, n: nat,
                   ghost c: Copying, ghost before: seq<byte>)
    returns (res: int, ghost d: Copying)
    requires input != output && n > 0 && HasRead(input, buffer, n, c)
    requires output.data == before + c.sent && output.writeCalls == c.nextSend
    modifies output`data, output`offset, output`writeCalls
    ensures d.offset == input.offset <= |input.data| && d.nextRead == input.readCalls && d.offset > c.offset
    ensures output.data == before + d.sent && output.writeCalls == d.nextSend
    ensures res == if d.refused then -1 else 0
    ensures Copy(input.data, c, input.onRead, output.onWrite)
         == if d.refused then d else Copy(input.data, d, input.onRead, output.onWrite)
  {
    CopyGoesOn(input.data, c, n, input.onRead, output.onWrite);
    Regroup(before, c.sent, WriteOut(buffer[..n], output.onWrite, c.nextSend).written);
    res := WriteAll(output, buffer, n);
    d := Round(input.data, c, input.onRead, output.onWrite);
  }

  /** `duplicate_data_across_fds`: copy from the offset to the end, until a read or a write fails. */
  method DuplicateData(input: Descriptor, output: Descriptor) returns (res: int)
    requires input != output && input.offset <= |input.data|
    modifies input`offset, input`readCalls, output`data, output`offset, output`writeCalls
    ensures var c := CopyStart(old(input.offset), old(input.readCalls), old(output.writeCalls));
            var e := Copy(input.data, c, input.onRead, output.onWrite);
            && output.data == old(output.data) + e.sent && output.writeCalls == e.nextSend
            && input.offset == e.offset && input.readCalls == e.nextRead
            && res == if e.refused then -1 else 0
  {
    var buffer := new byte[MAX_BUF_SIZE];
    ghost var c := CopyStart(input.offset, input.readCalls, output.writeCalls);
    ghost var e := Copy(input.data, c, input.onRead, output.onWrite);
    var n := ReadPiece(input, buffer, c);
    while n > 0
      invariant HasRead(input, buffer, n, c)
      invariant output.data == old(output.data) + c.sent && output.writeCalls == c.nextSend && !c.refused
      invariant Copy(input.data, c, input.onRead, output.onWrite) == e
      decreases |input.data| - c.offset
    {
      res, c := SendPiece(input, output, buffer, n, c, old(output.data));
      if res == -1 {
        return;
      }
      n := ReadPiece(input, buffer, c);
    }
    CopyEnds(input.data, c, input.onRead, output.onWrite);
    res := 0;
  }

  /** `spit_file_back_out_to_socket`: from the start, whatever the offset was; then back to the end. */
  method SpitFile(sock: Descriptor, disk: Descriptor)
    requires sock != disk
    modifies sock`data, sock`offset, sock`writeCalls, disk`offset, disk`readCalls
    ensures var c := CopyStart(0, old(disk.readCalls), old(sock.writeCalls));
            var e := Copy(disk.data, c, disk.onRead, sock.onWrite);
            sock.data == old(sock.data) + e.sent && sock.writeCalls == e.nextSend && disk.readCalls == e.nextRead
    ensures disk.offset == |disk.data|
  {
    disk.SeekStart();
    var res := DuplicateData(disk, sock);
    disk.SeekEnd();
  }

  /** `g_file_mutex`. */
  class FileMutex {
    var held: bool

    constructor ()
      ensures !held
    {
      held := false;
    }

    method Lock()
      requires !held
      modifies this
      ensures held
    {
      held := true;
    }

    method Unlock()
      requires held
      modifies this
      ensures !held
    {
      held := false;
    }
  }

  /** How the kernel answers calls on this file and this socket. */
  function KernelOf(disk: Descriptor, sock: Descriptor): Kernel {
    Kernel(disk.onWrite, disk.onRead, sock.onWrite)
  }

  function SessionOf(disk: Descriptor, sock: Descriptor): Session
    reads disk, sock
  {
    Session(disk.data, sock.data, disk.writeCalls, disk.readCalls, sock.writeCalls)
  }

  /** `handle_packet`: run alone, it does to the file and the socket what the kernel's answers make of
      a critical section, and leaves the mutex free and the offset at the end. */
  method HandlePacket(mutex: FileMutex, sock: Descriptor, disk: Descriptor, msg: array<byte>, len: nat)
    requires sock != disk && len <= msg.Length && !mutex.held
    modifies mutex, sock, disk
    ensures !mutex.held && disk.offset == |disk.data|
    ensures SessionOf(disk, sock) == Handle(KernelOf(disk, sock), old(SessionOf(disk, sock)), msg[..len])
  {
    mutex.Lock();
    var res := WriteAll(disk, msg, len);
    var newline := new byte[1](_ => NEWLINE);
    assert newline[..1] == [NEWLINE];
    res := WriteAll(disk, newline, 1);
    ghost var sec := RunSection(KernelOf(disk, sock), old(SessionOf(disk, sock)), msg[..len]);
    Regroup(old(disk.data), sec.body.written, sec.newline.written);
    SpitFile(sock, disk);
    mutex.Unlock();
  }
}
