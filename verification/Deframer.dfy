/**
 `received_messages` of src/python/chirouter/client.py: it puts the bytes that arrive, in chunks
 of any size, into one buffer, and takes a message out whenever one is complete.
 */
module Deframer {
  import opened Wrappers
  import opened Checksum
  import opened Messages

  /** The complete messages at the front of a stream. */
  function Split(s: Bytes): (ms: seq<Bytes>)
    ensures forall i :: 0 <= i < |ms| ==> |ms[i]| >= 4 && |ms[i]| == Length(ms[i])
    decreases |s|
  {
    if |s| < 4 || |s| < Length(s) then [] else [s[..Length(s)]] + Split(s[Length(s)..])
  }

  /** What comes after them. */
  function Remainder(s: Bytes): (r: Bytes)
    ensures |r| < 4 || |r| < Length(r)
    decreases |s|
  {
    if |s| < 4 || |s| < Length(s) then s else Remainder(s[Length(s)..])
  }

  /** No message of the stream outgrows the buffer. */
  predicate InRange(s: Bytes)
    decreases |s|
  {
    if |s| < 4 then true
    else if Length(s) > MSG_BUFFER then |s| <= MSG_BUFFER
    else |s| < Length(s) || InRange(s[Length(s)..])
  }

  /** None of the messages makes `from_buffer` raise an exception. */
  predicate AllReadable(ms: seq<Bytes>)
    requires forall i :: 0 <= i < |ms| ==> |ms[i]| >= 4
  {
    forall i :: 0 <= i < |ms| ==> Readable(ms[i])
  }

  /** A stream that the generator survives; an exception ends it. */
  predicate Survives(s: Bytes) {
    InRange(s) && AllReadable(Split(s))
  }

  /** One more byte completes a message or it does not. */
  lemma {:induction false} SplitMore(s: Bytes, b: Byte)
    ensures var r := Remainder(s) + [b];
            && (if |r| >= 4 && |r| == Length(r) then Split(s + [b]) == Split(s) + [r] && Remainder(s + [b]) == []
                else Split(s + [b]) == Split(s) && Remainder(s + [b]) == r)
            && (InRange(s + [b]) <==> InRange(s) && |r| <= MSG_BUFFER)
    decreases |s|
  {
    var t := s + [b];
    if |s| < 4 || |s| < Length(s) {
      SplitFirst(s, b);
    } else {
      var n := Length(s);
      SplitMore(s[n..], b);
      assert Length(t) == n && t[..n] == s[..n] && t[n..] == s[n..] + [b];
      hide Length;
      Associate([s[..n]], Split(s[n..]), [Remainder(s) + [b]]);
    }
  }

  lemma SplitFirst(s: Bytes, b: Byte)
    requires |s| < 4 || |s| < Length(s)
    ensures var r := s + [b];
            && Split(s) == [] && Remainder(s) == s
            && (if |r| >= 4 && |r| == Length(r) then Split(r) == [r] && Remainder(r) == []
                else Split(r) == [] && Remainder(r) == r)
            && (InRange(r) <==> InRange(s) && |r| <= MSG_BUFFER)
  {
    var r := s + [b];
    if |r| >= 4 && |r| == Length(r) {
      assert r[..|r|] == r && r[|r|..] == [];
      assert Split([]) == [] && Remainder([]) == [];
    }
    hide Word;
  }

  function Join(ms: seq<Bytes>): Bytes {
    if ms == [] then [] else ms[0] + Join(ms[1..])
  }

  /** Messages sent one after the other are found again, and nothing is left over. */
  lemma {:induction false} SplitJoin(ms: seq<Bytes>)
    requires forall i :: 0 <= i < |ms| ==> |ms[i]| >= 4 && |ms[i]| == Length(ms[i])
    ensures Split(Join(ms)) == ms && Remainder(Join(ms)) == []
    ensures InRange(Join(ms)) <==> forall i :: 0 <= i < |ms| ==> |ms[i]| <= MSG_BUFFER
  {
    if ms != [] {
      SplitJoin(ms[1..]);
      var s := Join(ms);
      assert Length(s) == |ms[0]| && s[..|ms[0]|] == ms[0] && s[|ms[0]|..] == Join(ms[1..]);
    }
  }

  class Receiver {
    const msgBuffer: array<Byte>
    var bufpos: nat
    var readingHeader: bool
    var payloadLen: nat
    ghost var fed: Bytes

    ghost predicate Valid()
      reads this, msgBuffer
    {
      && msgBuffer.Length == MSG_BUFFER && Survives(fed)
      && bufpos <= MSG_BUFFER && msgBuffer[..bufpos] == Remainder(fed)
      && (readingHeader <==> bufpos < 4)
      && (!readingHeader ==> 4 + payloadLen == Length(msgBuffer[..bufpos]))
    }

    constructor ()
      ensures Valid() && fed == [] && fresh(msgBuffer)
    {
      msgBuffer := new Byte[MSG_BUFFER](_ => 0);
      bufpos, readingHeader, payloadLen, fed := 0, true, 0, [];
    }

    /**
     The body of the loop; ok is false for an exception, which ends the generator: the IndexError
     of a message longer than the buffer, or the UnboundLocalError of an unknown subtype.
     */
    method ReceiveByte(b: Byte) returns (msg: Option<Received>, ok: bool)
      requires Valid()
      modifies this, msgBuffer
      ensures ok <==> Survives(old(fed) + [b])
      ensures ok ==> Valid() && fed == old(fed) + [b]
      ensures ok ==> match msg
                     case None => Split(fed) == Split(old(fed))
                     case Some(m) =>
                       && |Split(fed)| == |Split(old(fed))| + 1
                       && var whole := Split(fed)[|Split(old(fed))|];
                       && Split(fed) == Split(old(fed)) + [whole]
                       && (Complete(whole) ==> m == FromBuffer(whole))
    {
      SplitMore(fed, b);
      SurvivesMore(fed, b);
      ghost var was := msgBuffer[..bufpos];
      if bufpos >= msgBuffer.Length {
        return None, false;
      }
      hide Split, Remainder, InRange, FromBuffer, Complete, Survives, Readable;
      msgBuffer[bufpos] := b;
      bufpos := bufpos + 1;
      fed := fed + [b];
      ghost var whole := msgBuffer[..bufpos];
      assert whole == was + [b];
      if readingHeader && bufpos == 4 {
        payloadLen := Word(msgBuffer[2], msgBuffer[3]);
        readingHeader := false;
      }
      assert !readingHeader ==> 4 + payloadLen == Length(whole);
      msg := None;
      if !readingHeader && bufpos == payloadLen + 4 {
        var m := FromBuffer(msgBuffer[..]);
        Buffered(msgBuffer[..], whole);
        if m.Raised? {
          return None, false;
        }
        msg := Some(m);
        readingHeader := true;
        bufpos := 0;
        payloadLen := 0;
      }
      ok := true;
    }

    /** One chunk: the messages completed by it are those of the whole stream so far, whatever the chunks were. */
    method Receive(chunk: Bytes) returns (msgs: seq<Received>, ok: bool)
      requires Valid()
      modifies this, msgBuffer
      ensures ok <==> Survives(old(fed) + chunk)
      ensures ok ==> Valid() && fed == old(fed) + chunk && Yields(old(fed), fed, msgs)
      ensures exists n :: 0 <= n <= |chunk| && Yields(old(fed), old(fed) + chunk[..n], msgs)
    {
      msgs := [];
      for i := 0 to |chunk|
        invariant Valid() && fed == old(fed) + chunk[..i] && Yields(old(fed), fed, msgs)
      {
        hide Yields;
        ghost var sofar := fed;
        var msg, fine := ReceiveByte(chunk[i]);
        assert old(fed) + chunk[..i + 1] == old(fed) + chunk[..i] + [chunk[i]];
        if !fine {
          NotSurvived(old(fed) + chunk[..i + 1], chunk[i + 1..]);
          assert old(fed) + chunk == old(fed) + chunk[..i + 1] + chunk[i + 1..];
          return msgs, false;
        }
        YieldsOne(old(fed), sofar, fed, msgs, msg);
        if msg.Some? {
          msgs := msgs + [msg.value];
        }
      }
      assert chunk[..|chunk|] == chunk;
      ok := true;
    }
  }

  /** The messages that the stream gained, decoded. */
  predicate Yields(before: Bytes, after: Bytes, msgs: seq<Received>) {
    && |Split(after)| == |Split(before)| + |msgs| && Split(before) <= Split(after)
    && forall i :: 0 <= i < |msgs| ==>
         var whole := Split(after)[|Split(before)| + i];
         Complete(whole) ==> msgs[i] == FromBuffer(whole)
  }

  lemma YieldsOne(start: Bytes, before: Bytes, after: Bytes, msgs: seq<Received>, msg: Option<Received>)
    requires Yields(start, before, msgs)
    requires match msg
             case None => Split(after) == Split(before)
             case Some(m) =>
               && |Split(after)| == |Split(before)| + 1
               && var whole := Split(after)[|Split(before)|];
               Split(after) == Split(before) + [whole] && (Complete(whole) ==> m == FromBuffer(whole))
    ensures Yields(start, after, if msg.Some? then msgs + [msg.value] else msgs)
  {
    hide Split, Complete, FromBuffer;
  }

  lemma Buffered(buf: Bytes, whole: Bytes)
    requires |whole| >= 4 && |buf| >= 8 && whole <= buf
    ensures Complete(whole) ==> FromBuffer(buf) == FromBuffer(whole)
    ensures FromBuffer(buf).Raised? <==> !Readable(whole)
  {
    assert buf == whole + buf[|whole|..];
    if Complete(whole) { ReadsItselfOnly(whole, buf[|whole|..]); }
  }

  predicate FromServer(m: Message) {
    m.Frame? && m.subtype == SERVER_FROM_ROUTER && |m.frame| <= MSG_BUFFER - 8
  }

  function PackFrames(ms: seq<Message>): (ps: seq<Bytes>)
    requires forall i :: 0 <= i < |ms| ==> FromServer(ms[i]) && Fits(ms[i])
    ensures |ps| == |ms| && forall i :: 0 <= i < |ms| ==> ps[i] == Pack(ms[i])
  {
    seq(|ms|, i requires 0 <= i < |ms| => Pack(ms[i]))
  }

  /** A stream of the server's frame messages, cut anywhere, gives the client the same frames in the same order. */
  lemma FramesArrive(ms: seq<Message>)
    requires forall i :: 0 <= i < |ms| ==> FromServer(ms[i]) && Fits(ms[i])
    ensures var s := Join(PackFrames(ms));
            && Survives(s) && Remainder(s) == [] && |Split(s)| == |ms|
            && forall i :: 0 <= i < |ms| ==>
                 && Complete(Split(s)[i])
                 && FromBuffer(Split(s)[i]) == FrameIn(ms[i].rid, ms[i].ifaceId, ms[i].frame, false)
  {
    var ps := PackFrames(ms);
    forall i | 0 <= i < |ms|
      ensures 4 <= |ps[i]| <= MSG_BUFFER && |ps[i]| == Length(ps[i]) && Complete(ps[i])
      ensures FromBuffer(ps[i]) == FrameIn(ms[i].rid, ms[i].ifaceId, ms[i].frame, false)
    {
      var m := ms[i];
      assert FromServer(m);
      FrameReadBack(m.rid, m.ifaceId, m.frame, []);
      assert ps[i] + [] == ps[i];
      FrameComplete(m);
    }
    hide Split, Complete, FromBuffer, Pack;
    SplitJoin(ps);
  }

  lemma FrameComplete(m: Message)
    requires FromServer(m)
    ensures 4 <= |Pack(m)| <= MSG_BUFFER && |Pack(m)| == Length(Pack(m)) && Complete(Pack(m))
  {
    PackedParts(m, []);
    assert Pack(m) + [] == Pack(m);
    var b, p := Pack(m), Payload(m);
    assert b[6] == p[2] && b[7] == p[3] && p[2..4] == Be16(|m.frame|);
    assert p[2] == p[2..4][0] && p[3] == p[2..4][1];
  }

  lemma SurvivesMore(s: Bytes, b: Byte)
    ensures var r := Remainder(s) + [b];
            Survives(s + [b]) <==>
            Survives(s) && |r| <= MSG_BUFFER && (|r| >= 4 && |r| == Length(r) ==> Readable(r))
  {
    SplitMore(s, b);
    var r := Remainder(s) + [b];
    hide Split, Remainder, InRange, Readable;
    if |r| >= 4 && |r| == Length(r) {
      var ms := Split(s);
      assert (ms + [r])[|ms|] == r && forall i :: 0 <= i < |ms| ==> (ms + [r])[i] == ms[i];
    }
  }

  lemma {:induction false} NotSurvived(s: Bytes, more: Bytes)
    requires !Survives(s)
    ensures !Survives(s + more)
    decreases |more|
  {
    if more == [] {
      assert s + more == s;
    } else {
      SurvivesMore(s, more[0]);
      hide Survives;
      NotSurvived(s + [more[0]], more[1..]);
      assert s + [more[0]] + more[1..] == s + more;
    }
  }
}
