// The curl input stream: chunks of any size pushed in, chunks of any size pulled out.
module CurlStream {
  import opened Numbers

  newtype byte = x: int | 0 <= x < 256

  // What one call of curl's engine does: the chunks it hands to the write callback, whether transfers
  // are still running, whether it wants to be called again at once, and whether it reported an error.
  datatype Perform = Perform(chunks: seq<seq<byte>>, running: bool, again: bool, failed: bool)

  datatype Outcome = Returned(count: nat) | Failed | Waiting

  function Joined(chunks: seq<seq<byte>>): (r: seq<byte>) {
    if chunks == [] then [] else Joined(chunks[..|chunks| - 1]) + chunks[|chunks| - 1]
  }

  // All the bytes curl hands over in a run of calls.
  function Sent(script: seq<Perform>): (r: seq<byte>) {
    if script == [] then [] else Sent(script[..|script| - 1]) + Joined(script[|script| - 1].chunks)
  }

  lemma NothingSent(script: seq<Perform>)
    ensures Sent(script[..0]) == []
  {
  }

  lemma SentStep(script: seq<Perform>, n: nat)
    requires n < |script|
    ensures Sent(script[..n + 1]) == Sent(script[..n]) + Joined(script[n].chunks)
  {
    assert script[..n + 1][..n] == script[..n];
  }

  // Of n calls each but the last left the transfer running, without an error, and either asked to be called again
  // or had brought nothing yet, nothing being buffered before.
  ghost predicate KeptAsking(script: seq<Perform>, n: nat, idle: bool)
    requires n <= |script|
  {
    forall i :: 0 <= i < n - 1 ==>
      script[i].running && !script[i].failed && (script[i].again || (idle && Sent(script[..i + 1]) == []))
  }

  lemma AskedAgain(script: seq<Perform>, n: nat, idle: bool)
    requires n < |script| && KeptAsking(script, n, idle) == true
    requires n > 0 ==> script[n - 1].running && !script[n - 1].failed && (script[n - 1].again || (idle && Sent(script[..n]) == []))
    ensures KeptAsking(script, n + 1, idle) == true
  {
    hide Sent;
  }

  // Of n calls each but the last left the transfer running, without an error, and had brought nothing.
  ghost predicate Silent(script: seq<Perform>, n: nat)
    requires n <= |script|
  {
    forall i :: 0 <= i < n - 1 ==> script[i].running && !script[i].failed && Sent(script[..i + 1]) == []
  }

  lemma SilentAtFirst(script: seq<Perform>)
    ensures Silent(script, 0) == true
  {
  }

  lemma SilentSoFar(script: seq<Perform>, n: nat)
    requires n < |script| && Silent(script, n) == true
    requires n > 0 ==> script[n - 1].running && !script[n - 1].failed && Sent(script[..n]) == []
    ensures Silent(script, n + 1) == true
  {
    hide Sent;
  }

  function Ascii(s: string): seq<byte> {
    seq(|s|, i requires 0 <= i < |s| => (s[i] as int % 256) as byte)
  }

  // The document that stands in for the content when the status is not a success.
  function StatusDocument(status: nat): seq<byte> {
    Ascii("<URLInputSourceStatus xmlns=\"http://www.opensaml.org/xmltooling\">" + Decimal(status) + "</URLInputSourceStatus>")
  }

  // Its bytes are the codes of this text's characters, with the status in between, which is read back as the
  // number it is.
  lemma StatusSpelled(status: nat)
    ensures var text := "<URLInputSourceStatus xmlns=\"http://www.opensaml.org/xmltooling\">" + Decimal(status) + "</URLInputSourceStatus>";
            && |StatusDocument(status)| == |text| && Read(Decimal(status)) == status
            && forall i :: 0 <= i < |text| && text[i] as int < 128 ==> StatusDocument(status)[i] as int == text[i] as int
  {
    DecimalReads(status);
    hide Decimal;
  }

  // Bytes go straight through only while nothing is buffered, so the order is kept.
  lemma InOrder(received: seq<byte>, delivered: seq<byte>, buffered: seq<byte>, chunk: seq<byte>, n: nat)
    requires received == delivered + buffered && n <= |chunk| && (n == 0 || buffered == [])
    ensures received + chunk == delivered + chunk[..n] + (buffered + chunk[n..])
  {
  }

  lemma Served(delivered: seq<byte>, buffered: seq<byte>, n: nat)
    requires n <= |buffered|
    ensures delivered + buffered == delivered + buffered[..n] + buffered[n..]
  {
  }

  lemma NeverAsked(script: seq<Perform>, idle: bool)
    ensures KeptAsking(script, 0, idle) == true
  {
  }

  class InputStream {
    var buffer: array<byte>
    var head: nat
    var tail: nat
    var bufferSize: nat
    var target: array<byte>
    var writePos: nat
    var bytesRead: nat
    var bytesToRead: nat
    var totalBytesRead: nat
    var status: nat
    ghost var received: seq<byte>   // everything the reader is due, in order
    ghost var delivered: seq<byte>  // everything handed out by readBytes, in order
    ghost var base: seq<byte>       // what had been handed out when the current readBytes began
    ghost var was: seq<byte>        // what its target held then

    // No byte is lost, repeated or reordered.
    ghost predicate Valid()
      reads this, buffer
    {
      && tail <= head <= buffer.Length && (head == tail ==> head == 0)
      && (status < 300 ==> bufferSize == buffer.Length)
      && received == delivered + buffer[tail..head]
      && totalBytesRead == |delivered|
    }

    // The bytes received and not yet handed out.
    ghost function Buffered(): seq<byte>
      reads this, buffer
      requires tail <= head <= buffer.Length
    {
      buffer[tail..head]
    }

    // The current readBytes: what it handed out is at the start of its target.
    ghost predicate Filling()
      reads this, target
    {
      && writePos == bytesRead && writePos + bytesToRead <= target.Length && target != buffer
      && delivered == base + target[..writePos]
      && |was| == target.Length && forall k :: writePos <= k < target.Length ==> target[k] == was[k]
    }

    // What holds whenever curl may call back: the tail is at the buffer start, and nothing is buffered
    // while the reader still wants bytes.
    ghost predicate CallbackReady()
      reads this, buffer, target
    {
      Valid() && Filling() && tail == 0 && status < 300 && (bytesToRead > 0 ==> head == 0)
    }

    constructor ()
      ensures CallbackReady() && received == [] && delivered == [] && status == 200 && bytesToRead == 0
      ensures fresh(buffer) && fresh(target) && head == 0
    {
      buffer, target := new byte[0], new byte[0];
      head, tail, bufferSize, writePos := 0, 0, 0, 0;
      bytesRead, bytesToRead, totalBytesRead, status := 0, 0, 0, 200;
      received, delivered, base, was := [], [], [], [];
    }

    // writeCallback: first what the reader asked for, the rest into the buffer, which grows as needed.
    method WriteCallback(chunk: seq<byte>) returns (consumed: nat)
      requires CallbackReady()
      modifies this, buffer, target
      ensures CallbackReady() && (buffer == old(buffer) || fresh(buffer))
      ensures consumed == |chunk| && received == old(received) + chunk
      ensures target == old(target) && base == old(base) && was == old(was) && status == old(status)
      ensures bytesRead + bytesToRead == old(bytesRead + bytesToRead)
    {
      var cnt := |chunk|;
      var consume := if cnt > bytesToRead then bytesToRead else cnt;
      TakeDirect(chunk[..consume]);
      consumed := consume;
      cnt := cnt - consume;
      if cnt > 0 {
        Rebuffer(chunk[consume..]);
        consumed := consumed + cnt;
      }
      InOrder(received, old(delivered), old(buffer[..head]), chunk, consume);
      received := received + chunk;
      assert buffer[..head] == old(buffer[..head]) + chunk[consume..];
      assert buffer[tail..head] == buffer[..head];
    }

    // The first half of writeCallback: bytes straight to the reader.
    method TakeDirect(part: seq<byte>)
      requires Filling() && |part| <= bytesToRead
      modifies this`writePos, this`bytesRead, this`bytesToRead, this`totalBytesRead, this`delivered, target
      ensures Filling() && delivered == old(delivered) + part
      ensures bytesRead == old(bytesRead) + |part| && bytesToRead == old(bytesToRead) - |part|
      ensures totalBytesRead == old(totalBytesRead) + |part|
    {
      forall k | 0 <= k < |part| {
        target[writePos + k] := part[k];
      }
      writePos := writePos + |part|;
      bytesRead := bytesRead + |part|;
      totalBytesRead := totalBytesRead + |part|;
      bytesToRead := bytesToRead - |part|;
      delivered := delivered + part;
      assert target[..writePos] == old(target[..writePos]) + part;
    }

    // The second half of writeCallback: enlarge by what is missing, append at the head.
    method Rebuffer(rest: seq<byte>)
      requires tail == 0 && head <= buffer.Length == bufferSize
      modifies this`buffer, this`head, this`tail, this`bufferSize, buffer
      ensures tail == 0 && head == old(head) + |rest| <= buffer.Length == bufferSize
      ensures buffer[..head] == old(buffer[..head]) + rest
      ensures buffer == old(buffer) || fresh(buffer)
    {
      var bufAvail := bufferSize - head;
      if bufAvail < |rest| {
        var newbuf := new byte[bufferSize + (|rest| - bufAvail)];
        forall k | 0 <= k < bufferSize {
          newbuf[k] := buffer[k];
        }
        bufferSize := bufferSize + (|rest| - bufAvail);
        buffer, tail := newbuf, 0;
      }
      forall k | 0 <= k < |rest| {
        buffer[head + k] := rest[k];
      }
      head := head + |rest|;
    }

    // readMore: curl calls back any number of times, with chunks of any size.
    method ReadMore(p: Perform) returns (again: bool, ok: bool)
      requires CallbackReady() == true
      modifies this, buffer, target
      ensures CallbackReady() == true && (buffer == old(buffer) || fresh(buffer))
      ensures received == old(received) + Joined(p.chunks)
      ensures target == old(target) && base == old(base) && was == old(was) && status == old(status)
      ensures bytesRead + bytesToRead == old(bytesRead + bytesToRead)
      ensures again == p.again && ok == !p.failed
    {
      var i := 0;
      while i < |p.chunks|
        invariant 0 <= i <= |p.chunks| && CallbackReady() && (buffer == old(buffer) || fresh(buffer))
        invariant received == old(received) + Joined(p.chunks[..i])
        invariant target == old(target) && base == old(base) && was == old(was) && status == old(status)
        invariant bytesRead + bytesToRead == old(bytesRead + bytesToRead)
      {
        var consumed := WriteCallback(p.chunks[i]);
        assert p.chunks[..i + 1][..i] == p.chunks[..i];
        i := i + 1;
      }
      assert p.chunks[..i] == p.chunks;
      again, ok := p.again, !p.failed;
    }

    // Hands out what is buffered, as far as it is wanted; an empty buffer starts over at its beginning.
    method TakeBuffered() returns (bufCnt: nat)
      requires Valid() && Filling()
      modifies this`head, this`tail, this`writePos, this`bytesRead, this`bytesToRead, this`totalBytesRead, this`delivered, target
      ensures Valid() && Filling()
      ensures bufCnt == if old(head - tail) > old(bytesToRead) then old(bytesToRead) else old(head - tail)
      ensures bytesRead == old(bytesRead) + bufCnt && bytesToRead == old(bytesToRead) - bufCnt
      ensures Buffered() == old(Buffered())[bufCnt..]
    {
      bufCnt := head - tail;
      bufCnt := if bufCnt > bytesToRead then bytesToRead else bufCnt;
      if bufCnt > 0 {
        ghost var buffered := Buffered();
        var part := buffer[tail..tail + bufCnt];
        assert part == buffered[..bufCnt];
        Served(delivered, buffered, bufCnt);
        TakeDirect(part);
        tail := tail + bufCnt;
        assert buffer[tail..head] == buffered[bufCnt..];
        if tail == head {
          head, tail := 0, 0;
        }
      }
    }

    // readBytes is at work: so far it has served part of the request into its target.
    ghost predicate Reading(toFill: array<byte>, maxToRead: nat)
      reads this, buffer, target
    {
      Valid() && Filling() && target == toFill && bytesRead + bytesToRead == maxToRead
    }

    // The turn of the loop that asks curl, when nothing is buffered.
    method AskCurl(p: Perform, ghost toFill: array<byte>, ghost maxToRead: nat) returns (again: bool, ok: bool)
      requires Reading(toFill, maxToRead) == true && head == tail && status < 300
      modifies this, buffer, target
      ensures Reading(toFill, maxToRead) == true && (buffer == old(buffer) || fresh(buffer))
      ensures received == old(received) + Joined(p.chunks)
      ensures target == old(target) && base == old(base) && was == old(was) && status == old(status)
      ensures again == p.again && ok == !p.failed && tail <= head && (bytesToRead > 0 ==> head == tail)
    {
      again, ok := ReadMore(p);
    }

    // The turn of the loop that serves from the buffer.
    method ServeBuffered(ghost toFill: array<byte>, ghost maxToRead: nat) returns (bufCnt: nat)
      requires Reading(toFill, maxToRead) == true
      modifies this`head, this`tail, this`writePos, this`bytesRead, this`bytesToRead, this`totalBytesRead, this`delivered, target
      ensures Reading(toFill, maxToRead) == true && bytesToRead == old(bytesToRead) - bufCnt
      ensures bytesRead == old(bytesRead) + bufCnt && head - tail == old(head - tail) - bufCnt
      ensures tail <= head && (bufCnt == 0 && old(bytesToRead) > 0 ==> head == tail)
    {
      bufCnt := TakeBuffered();
    }

    // readBytes.  The script is what curl will do when called; Waiting means it ran out while the
    // reader was still waiting for the first byte, or was told to call again.
    method ReadBytes(toFill: array<byte>, maxToRead: nat, script: seq<Perform>) returns (outcome: Outcome, used: nat)
      requires Valid() && toFill != buffer && maxToRead <= toFill.Length
      modifies this, buffer, toFill
      ensures Valid() && (buffer == old(buffer) || fresh(buffer)) && toFill != buffer && status == old(status)
      ensures used <= |script| && received == old(received) + Sent(script[..used])
      ensures bytesRead + bytesToRead == maxToRead && delivered == old(delivered) + toFill[..bytesRead]
      ensures toFill[bytesRead..] == old(toFill[..])[bytesRead..]
      ensures outcome.Returned? ==> outcome.count == bytesRead
      ensures outcome.Returned? && bytesRead < maxToRead ==>
                && head == tail
                && (status >= 300 || (used > 0 && (!script[used - 1].running || (!script[used - 1].again && bytesRead > 0))))
      ensures (used > 0 ==> old(head - tail) < maxToRead) && KeptAsking(script, used, old(head == tail)) == true
      ensures status >= 300 ==>
                used == 0 && outcome == Returned(if maxToRead < old(head - tail) then maxToRead else old(head - tail))
      ensures outcome.Failed? ==> used > 0 && script[used - 1].failed
      ensures outcome.Waiting? ==> used == |script| && bytesToRead > 0
    {
      hide Sent, Joined, StatusDocument, CallbackReady, KeptAsking;
      bytesRead, bytesToRead, writePos, target := 0, maxToRead, 0, toFill;
      base, was := delivered, toFill[..];
      used := 0;
      NothingSent(script);
      outcome, used := Serve(toFill, maxToRead, script);
    }

    lemma Amounts(toFill: array<byte>, maxToRead: nat)
      requires Reading(toFill, maxToRead) == true
      ensures |received| == |base| + bytesRead + (head - tail)
    {
    }

    method Serve(toFill: array<byte>, maxToRead: nat, script: seq<Perform>) returns (outcome: Outcome, used: nat)
      requires Reading(toFill, maxToRead) == true && bytesRead == 0 && tail <= head
      modifies this, buffer, toFill
      ensures Reading(toFill, maxToRead) == true && (buffer == old(buffer) || fresh(buffer))
      ensures base == old(base) && was == old(was) && status == old(status)
      ensures used <= |script| && received == old(received) + Sent(script[..used])
      ensures outcome.Returned? ==> outcome.count == bytesRead
      ensures outcome.Returned? && bytesRead < maxToRead ==>
                && head == tail
                && (status >= 300 || (used > 0 && (!script[used - 1].running || (!script[used - 1].again && bytesRead > 0))))
      ensures (used > 0 ==> old(head - tail) < maxToRead) && KeptAsking(script, used, old(head == tail)) == true
      ensures status >= 300 ==>
                used == 0 && outcome == Returned(if maxToRead < old(head - tail) then maxToRead else old(head - tail))
      ensures outcome.Failed? ==> used > 0 && script[used - 1].failed
      ensures outcome.Waiting? ==> used == |script| && bytesToRead > 0
    {
      hide Sent, Joined, StatusDocument, CallbackReady, Valid, Filling, KeptAsking;
      used := 0;
      NothingSent(script);
      NeverAsked(script, head == tail);
      Amounts(toFill, maxToRead);
      var tryAgain := true;
      while bytesToRead > 0 && (tryAgain || bytesRead == 0)
        invariant Reading(toFill, maxToRead) == true && base == old(base) && was == old(was) && status == old(status)
        invariant buffer == old(buffer) || fresh(buffer)
        invariant used <= |script| && received == old(received) + Sent(script[..used])
        invariant tail <= head && (used > 0 ==> script[used - 1].running && status < 300)
        invariant used == 0 ==> tryAgain && head - tail == old(head - tail) - bytesRead
        invariant used > 0 ==> tryAgain == script[used - 1].again && !script[used - 1].failed && (bytesToRead > 0 ==> head == tail)
        invariant (used > 0 ==> old(head - tail) < maxToRead) && KeptAsking(script, used, old(head == tail)) == true
        decreases |script| - used, bytesToRead
      {
        var bufCnt := ServeBuffered(toFill, maxToRead);
        if bufCnt > 0 {
          tryAgain := true;
          continue;
        }
        if status >= 300 {
          break;
        }
        if used == |script| {
          return Waiting, used;
        }
        var ok;
        SentStep(script, used);
        Amounts(toFill, maxToRead);
        AskedAgain(script, used, old(head == tail));
        tryAgain, ok := AskCurl(script[used], toFill, maxToRead);
        used := used + 1;
        if !ok {
          return Failed, used;
        }
        if !script[used - 1].running {
          break;
        }
      }
      outcome := Returned(bytesRead);
    }

    // The short cut for a status that is not a success.
    method SetStatus(code: nat, known: bool)
      requires CallbackReady() == true && delivered == []
      modifies this`status, this`buffer, this`head, this`tail, this`received
      ensures Valid() && status == if known then code else 200
      ensures received == if known && code >= 300 then StatusDocument(code) else old(received)
    {
      hide StatusDocument;
      if known {
        status := code;
        if code >= 300 {
          var doc := StatusDocument(code);
          buffer := new byte[|doc|](i requires 0 <= i < |doc| => doc[i]);
          tail, head := 0, |doc|;
          received := doc;
          assert buffer[0..head] == doc;
        }
      } else {
        status := 200;
      }
    }

    // The constructor's own reading: until something is buffered or the transfer ends.  A status of 300
    // or more replaces whatever came by a document naming the status.
    method Init(script: seq<Perform>, code: nat, known: bool) returns (outcome: Outcome, used: nat)
      requires CallbackReady() == true && received == [] && delivered == [] && head == 0 && bytesToRead == 0 && status == 200
      modifies this, buffer, target
      ensures Valid() && delivered == [] && used <= |script|
      ensures outcome.Returned? ==> status == if known then code else 200
      ensures outcome.Returned? ==> received == if known && code >= 300 then StatusDocument(code) else Sent(script[..used])
      ensures !outcome.Returned? ==> received == Sent(script[..used])
      ensures outcome.Returned? ==> used > 0 && (Sent(script[..used]) != [] || !script[used - 1].running) && !script[used - 1].failed
      ensures Silent(script, used) == true
      ensures (outcome.Failed? ==> used > 0 && script[used - 1].failed) && (outcome.Waiting? ==> used == |script|)
    {
      hide Sent, Joined, StatusDocument, Silent;
      used := 0;
      NothingSent(script);
      SilentAtFirst(script);
      while head == 0
        invariant CallbackReady() == true && delivered == [] && bytesToRead == 0 && bytesRead == 0 && status == 200
        invariant used <= |script| && received == Sent(script[..used]) && |received| == head
        invariant Silent(script, used) == true
        invariant used > 0 ==> script[used - 1].running && !script[used - 1].failed
        invariant (buffer == old(buffer) || fresh(buffer)) && target == old(target)
        decreases |script| - used
      {
        if used == |script| {
          return Waiting, used;
        }
        var p := script[used];
        var again, ok;
        SentStep(script, used);
        SilentSoFar(script, used);
        again, ok := ReadMore(p);
        used := used + 1;
        if !ok {
          return Failed, used;
        }
        if !p.running {
          break;
        }
      }
      SetStatus(code, known);
      outcome := Returned(head);
    }
  }

  // A reader of the status document: however its reads are sized, together they hand out exactly the
  // document, and then nothing more.
  method ReadStatus(stream: InputStream, toFill: array<byte>, sizes: seq<nat>, code: nat) returns (got: seq<byte>)
    requires stream.Valid() && stream.status == code >= 300 && stream.received == StatusDocument(code) && stream.delivered == []
    requires toFill != stream.buffer && forall n :: n in sizes ==> n <= toFill.Length
    modifies stream, stream.buffer, toFill
    ensures got <= StatusDocument(code)
    ensures Total(sizes) >= |StatusDocument(code)| ==> got == StatusDocument(code)
  {
    hide StatusDocument;
    got := [];
    var i := 0;
    assert sizes[..0] == [];
    while i < |sizes|
      invariant 0 <= i <= |sizes|
      invariant stream.Valid() && stream.status == code && stream.received == StatusDocument(code) && stream.delivered == got
      invariant (stream.buffer == old(stream.buffer) || fresh(stream.buffer)) && toFill != stream.buffer
      invariant |got| == if Total(sizes[..i]) < |StatusDocument(code)| then Total(sizes[..i]) else |StatusDocument(code)|
    {
      assert sizes[i] in sizes;
      var outcome, used := stream.ReadBytes(toFill, sizes[i], []);
      assert sizes[..i + 1][..i] == sizes[..i];
      got := got + toFill[..outcome.count];
      i := i + 1;
    }
    assert sizes[..i] == sizes;
  }

  function Total(sizes: seq<nat>): nat {
    if sizes == [] then 0 else Total(sizes[..|sizes| - 1]) + sizes[|sizes| - 1]
  }
}
