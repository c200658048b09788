/**
 The server's file-send state: a file region leaves either through `sendfile` or, for
 user-space TLS, through a staging buffer.  No byte is lost, duplicated or reordered,
 and the send is marked finished only when the last byte is out.
 */
module FileSend {
  import opened Transports

  datatype Code = Read | Sent | WouldBlock | Error

  datatype FileResult = FileResult(bytesDone: nat, code: Code, enableWritable: bool)

  const SENDFILE_CHUNK: nat := 0x20_0000
  const TLS_READ_CHUNK: nat := 0x2_0000

  lemma SplitRange(file: string, at: nat, n: nat, length: nat)
    requires n <= length && at + length <= |file|
    ensures file[at..at + n] + file[at + n..at + length] == file[at..at + length]
  {
  }

  /** Moving the front of the staged bytes to the emitted ones changes nothing overall. */
  lemma Regroup(emitted: string, staged: string, remaining: string, k: nat)
    requires k <= |staged|
    ensures emitted + staged[..k] + staged[k..] + remaining == emitted + staged + remaining
    ensures emitted + staged[..k] <= emitted + staged + remaining
  {
    assert staged[..k] + staged[k..] == staged;
  }

  lemma Flatten(emitted: string, staged: string, remaining: string)
    ensures emitted + staged + remaining == emitted + (staged + remaining)
    ensures staged == "" ==> emitted + staged + remaining == emitted + remaining
    ensures staged == "" && remaining == "" ==> emitted + staged + remaining == emitted
    ensures emitted <= emitted + staged + remaining
  {
  }

  /** After a TLS read of `got`, leaving `rest`, all bytes are accounted for iff nothing was staged before. */
  lemma ReadConservesIffDrained(emitted: string, staged: string, remaining: string, got: string, rest: string)
    requires got + rest == remaining
    ensures emitted + got + rest == emitted + staged + remaining <==> staged == ""
  {
    Flatten(emitted, got, rest);
    Flatten(emitted, staged, remaining);
    assert |emitted + got + rest| == |emitted| + |remaining|;
  }

  class ConnectionState {
    const file: string         // as it was when the send began
    const stable: bool         // the file keeps its size while it is sent
    var available: nat         // bytes it holds now
    var offset: nat            // of the part of the file not yet taken
    var length: nat            // of that part
    var buffer: string         // staged for user-space TLS
    var active: bool           // a file send is in progress
    var waitingWritable: bool
    var broken: bool           // the transport has failed, for good
    ghost var emitted: string
    ghost var original: string

    constructor (file: string, stable: bool)
      ensures Valid() && this.file == file && this.stable == stable && available == |file|
      ensures !active && buffer == "" && !broken
    {
      this.file, this.stable, available := file, stable, |file|;
      offset, length, buffer, active, waitingWritable, broken := 0, 0, "", false, false, false;
      emitted, original := "", "";
    }

    ghost function Remaining(): string
      reads this
    {
      if offset + length <= |file| then file[offset..offset + length] else ""
    }

    /** Conservation, and what a finished send has achieved. */
    ghost predicate Valid()
      reads this
    {
      && offset + length <= |file| && available <= |file| && (stable ==> available == |file|)
      && (!broken ==> emitted + buffer + Remaining() == original)
      && (broken ==> emitted <= original)
      && (!active && !broken ==> emitted == original)
    }

    method AttachFilePayload(from: nat, count: nat)
      requires Valid() && !active && !broken && buffer == "" && from + count <= |file|
      modifies this
      ensures Valid() && !broken && buffer == "" && active == (count > 0) && available == old(available)
      ensures offset == from && length == count && emitted == ""
      ensures original == file[from..from + count]
    {
      offset, length := from, count;
      active := count > 0;
      emitted, original := "", file[from..from + count];
      assert "" + "" + original == original;
    }

    /** A socket write: some prefix goes out, unless the transport has failed. */
    method TransportWrite(data: string) returns (written: nat, want: Hint)
      modifies this`emitted, this`broken
      ensures written <= |data| && emitted == old(emitted) + data[..written]
      ensures broken == (old(broken) || want == Failed)
      ensures old(broken) ==> written == 0 && want == Failed
    {
      written :| 0 <= written <= |data|;
      want := *;
      if broken {
        written, want := 0, Failed;
      }
      broken := broken || want == Failed;
      emitted := emitted + data[..written];
    }

    /** The file may lose its end at any time, unless it is stable. */
    method Shrink()
      requires available <= |file| && (stable ==> available == |file|)
      modifies this`available
      ensures available <= old(available) && (stable ==> available == |file|)
    {
      if !stable {
        var size: int := *;
        if 0 <= size < available { available := size; }
      }
    }

    /** `pread` into the staging buffer, whose old contents are replaced; nothing past the end of the file. */
    method ReadIntoBuffer(maxBytes: nat) returns (n: nat)
      requires offset + length <= |file| && maxBytes <= length && available <= |file|
      modifies this`offset, this`length, this`buffer, this`active
      ensures n <= maxBytes && (n > 0 <==> maxBytes > 0 && old(offset) < available)
      ensures length == old(length) - n && offset == old(offset) + n
      ensures buffer + Remaining() == old(Remaining()) && |buffer| == n
      ensures active == (old(active) && !(buffer == "" && length == 0))
    {
      if maxBytes > 0 && offset < available {
        n :| 1 <= n <= maxBytes && offset + n <= available;
      } else {
        n := 0;
      }
      SplitRange(file, offset, n, length);
      buffer := file[offset..offset + n];
      assert buffer + file[offset + n..offset + length] == file[offset..offset + length];
      offset, length := offset + n, length - n;
      if buffer == "" && length == 0 { active := false; }
    }

    /** `sendfile`, which advances the offset itself. */
    method SendfileSome(maxBytes: nat) returns (n: nat)
      requires offset + length <= |file| && maxBytes <= length && available <= |file|
      modifies this`offset, this`length, this`buffer, this`active, this`emitted
      ensures n <= maxBytes && length == old(length) - n && offset == old(offset) + n
      ensures n > 0 ==> old(offset) < available
      ensures emitted + Remaining() == old(emitted + Remaining()) && (n == 0 ==> emitted == old(emitted))
      ensures if length == 0 then buffer == "" && !active else buffer == old(buffer) && active == old(active)
    {
      n :| 0 <= n <= maxBytes && (n > 0 ==> offset + n <= available);
      SplitRange(file, offset, n, length);
      assert emitted + file[offset..offset + n] + file[offset + n..offset + length] == emitted + Remaining();
      emitted := emitted + file[offset..offset + n];
      offset, length := offset + n, length - n;
      if length == 0 {
        active := false;
        buffer := "";
      }
    }

    /**
     One transfer attempt.  A TLS read replaces the staging buffer: what it conserves is
     the bytes emitted and remaining, so staged bytes survive exactly when there are none.
     */
    method TransportFile(tls: bool) returns (res: FileResult)
      requires offset + length <= |file| && available <= |file| && (stable ==> available == |file|)
      modifies this
      ensures broken == (old(broken) || res.code == Error) && original == old(original)
      ensures offset + length == old(offset + length) && waitingWritable == old(waitingWritable)
      ensures available <= old(available) && (stable ==> available == |file|)
      ensures match res.code
              case Read =>
                && tls && length == old(length) - res.bytesDone && emitted == old(emitted)
                && (old(length) > 0 ==>
                      && buffer + Remaining() == old(Remaining()) && |buffer| == res.bytesDone
                      && (res.bytesDone > 0 <==> old(offset) < available)
                      && active == (old(active) && !(buffer == "" && length == 0)))
                && (old(length) == 0 ==> buffer == "" || unchanged(this`buffer, this`active))
              case Sent =>
                && !tls && !broken && length == old(length) - res.bytesDone && res.bytesDone > 0
                && emitted + Remaining() == old(emitted + Remaining())
                && (if length == 0 then buffer == "" && !active else buffer == old(buffer) && active == old(active))
              case WouldBlock =>
                && unchanged(this`emitted, this`length)
                && (tls || length > 0 ==> unchanged(this`buffer, this`active))
              case Error =>
                unchanged(this`emitted, this`length, this`buffer) && !active
    {
      Shrink();
      var failed, wouldBlock, interrupted: bool := *, *, *;
      if failed || (broken && !tls) {  // a failed socket carries nothing more
        if wouldBlock || interrupted {
          return FileResult(0, if !tls || length != 0 then WouldBlock else Read, tls || wouldBlock);
        }
        active, broken := false, true;
        return FileResult(0, Error, tls);
      }
      var limit := if tls then TLS_READ_CHUNK else SENDFILE_CHUNK;
      var maxBytes := if length < limit then length else limit;
      if tls {
        var n := ReadIntoBuffer(maxBytes);
        return FileResult(n, Read, true);
      }
      var n := SendfileSome(maxBytes);
      if n == 0 {
        return FileResult(0, WouldBlock, true);
      }
      return FileResult(n, Sent, false);
    }

    /** One write of the staged bytes; a failure throws the rest away. */
    method WriteStaged() returns (written: nat, want: Hint)
      requires Valid() && buffer != "" && (active || broken)
      modifies this`buffer, this`active, this`emitted, this`broken
      ensures Valid() && written <= |old(buffer)|
      ensures if want == Failed then broken && !active && buffer == ""
              else !broken && !old(broken) && active == old(active) && buffer == old(buffer)[written..]
    {
      ghost var before, staged, rest := emitted, buffer, Remaining();
      written, want := TransportWrite(buffer);
      assert Remaining() == rest;
      Regroup(before, staged, rest, written);
      if want == Failed {
        active := false;
        buffer := "";
      } else {
        buffer := buffer[written..];
      }
    }

    /** Nothing staged and nothing left to read: the send is over. */
    lemma AllEmitted()
      requires Valid() && buffer == "" && length == 0 && !broken
      ensures emitted == original
    {
    }

    /** Drain the staging buffer; true when bytes are left and the socket is full. */
    method FlushUserSpaceTlsBuffer() returns (pending: bool)
      requires Valid() && (buffer != "" ==> active || broken)
      modifies this`buffer, this`active, this`emitted, this`broken, this`waitingWritable
      ensures Valid() && (buffer != "" ==> active || broken)
      ensures !pending ==> buffer == ""
      ensures old(buffer) == "" ==> !pending && unchanged(this)
      ensures old(broken) ==> broken
      ensures !broken && length > 0 ==> active == old(active)
    {
      if buffer == "" { return false; }
      while true
        invariant Valid() && buffer != "" && (active || broken) && (old(broken) ==> broken)
        invariant !broken ==> active == old(active)
        decreases |buffer|
      {
        var written, want := WriteStaged();
        if want == Failed { return false; }
        if buffer == "" {
          if length == 0 {
            AllEmitted();
            active := false;
          }
          return false;
        }
        if want == WriteReady || written == 0 {
          waitingWritable := true;
          return true;
        }
      }
    }

    /** Nothing staged is left behind by an inactive send. */
    ghost predicate Steady(userSpaceTls: bool)
      reads this
    {
      && Valid()
      && (buffer != "" ==> userSpaceTls && (active || broken))
      && (length > 0 ==> active || broken)
    }

    /** A transfer attempt on a drained buffer keeps everything, and advances exactly as the file allows. */
    method TransferDrained(userSpaceTls: bool) returns (res: FileResult)
      requires Steady(userSpaceTls) && buffer == "" && length > 0
      modifies this
      ensures Steady(userSpaceTls) && original == old(original) && available <= old(available)
      ensures offset + length == old(offset + length) && length <= old(length) && (old(broken) ==> broken)
      ensures res.code == Sent ==> !userSpaceTls && length < old(length)
      ensures res.code == Read ==> userSpaceTls && (length < old(length) <==> old(offset) < available)
      ensures res.code == Read && length == old(length) ==>
                emitted == old(emitted) && buffer == "" && active == old(active) && broken == old(broken)
      ensures res.code != Read ==> buffer == ""
      ensures res.code == WouldBlock || res.code == Error ==> length == old(length) && emitted == old(emitted)
    {
      Flatten(emitted, buffer, Remaining());
      res := TransportFile(userSpaceTls);
      Flatten(emitted, buffer, Remaining());
    }

    /**
     One round of the flush loop from a drained buffer with file left to send. Under user-space
     TLS a round that goes on has advanced if and only if the file still held the next byte;
     otherwise it leaves everything as it was.
     */
    method FlushRound(userSpaceTls: bool) returns (done: bool)
      requires Steady(userSpaceTls) && buffer == "" && length > 0
      modifies this
      ensures Steady(userSpaceTls) && original == old(original) && available <= old(available)
      ensures offset + length == old(offset + length)
      ensures !done ==> buffer == ""
      ensures !done && userSpaceTls ==> (length < old(length) <==> old(offset) < available)
      ensures !done && !userSpaceTls ==> length < old(length)
      ensures userSpaceTls && old(available) <= old(offset) ==> length == old(length) && emitted == old(emitted)
      ensures !done && userSpaceTls && old(available) <= old(offset) ==> active == old(active) && broken == old(broken)
    {
      var res := TransferDrained(userSpaceTls);
      match res.code
      case Read =>
        var pending := FlushUserSpaceTlsBuffer();
        return pending;
      case Sent => return false;
      case WouldBlock =>
        if !res.enableWritable || waitingWritable { return true; }
        waitingWritable := true;
        var retry := TransferDrained(userSpaceTls);
        return retry.code != Sent;
      case Error => return true;
    }

    /**
     The flush loop, for any number of rounds: every TLS read happens on a drained buffer, so no
     byte is lost. While the file keeps its size the loop ends by itself; a TLS send whose file
     ends before the next byte goes round without end, changing nothing.
     */
    method FlushFilePayload(userSpaceTls: bool, rounds: nat) returns (done: bool)
      requires Steady(userSpaceTls)
      modifies this
      ensures Steady(userSpaceTls) && original == old(original)
      ensures stable && rounds > old(length) ==> done
      ensures userSpaceTls && old(buffer) == "" && old(available) <= old(offset) && old(length) > 0 ==>
                length == old(length) && offset == old(offset) && emitted == old(emitted)
    {
      if length == 0 && buffer == "" {
        assert emitted + buffer + Remaining() == emitted;
        active := false;
        return true;
      }
      if userSpaceTls {
        var pending := FlushUserSpaceTlsBuffer();
        if pending { return true; }
      }
      for i := 0 to rounds
        invariant Steady(userSpaceTls) && original == old(original) && buffer == ""
        invariant available <= old(available) && offset + length == old(offset + length)
        invariant stable ==> length + i <= old(length)
        invariant userSpaceTls && old(buffer) == "" && old(available) <= old(offset) && old(length) > 0 ==>
                    length == old(length) && emitted == old(emitted)
      {
        if length == 0 {
          assert emitted + buffer + Remaining() == emitted;
          active := false;
          return true;
        }
        done := FlushRound(userSpaceTls);
        if done { return; }
      }
      done := false;
    }
  }
}
