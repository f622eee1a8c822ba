/**
 Answers that come over TCP (adns/event.c:349-389): each is preceded by its length in two bytes (section
 4.2.2 of RFC 1035), and `read` gives the bytes of the stream in pieces of any size.
 */
module TcpStream {
  import opened Wrappers

  // ----- the frames of a stream -----

  function FrameLength(s: seq<byte>): nat
    requires |s| >= 2
  {
    var high: int := s[0];
    high * 0x100 + s[1]
  }

  predicate HasFrame(s: seq<byte>) { |s| >= 2 && |s| >= 2 + FrameLength(s) }

  /** The complete frames of a stream. */
  function Frames(s: seq<byte>): seq<seq<byte>> {
    if HasFrame(s) then [s[2..2 + FrameLength(s)]] + Frames(s[2 + FrameLength(s)..]) else []
  }

  /** What is behind them. */
  function Rest(s: seq<byte>): (r: seq<byte>)
    ensures !HasFrame(r)
  {
    if HasFrame(s) then Rest(s[2 + FrameLength(s)..]) else s
  }

  /** The stream that consists of these frames. */
  function Framed(frames: seq<seq<byte>>): seq<byte>
    requires forall k :: 0 <= k < |frames| ==> |frames[k]| < 0x1_0000
  {
    if frames == [] then []
    else [|frames[0]| / 0x100, |frames[0]| % 0x100] + frames[0] + Framed(frames[1..])
  }

  lemma FrameBehind(s: seq<byte>, t: seq<byte>)
    requires HasFrame(s)
    ensures HasFrame(s + t) && FrameLength(s + t) == FrameLength(s)
    ensures (s + t)[2..2 + FrameLength(s)] == s[2..2 + FrameLength(s)]
    ensures (s + t)[2 + FrameLength(s)..] == s[2 + FrameLength(s)..] + t
  {
    assert (s + t)[0] == s[0] && (s + t)[1] == s[1];
  }

  lemma FirstFrame(s: seq<byte>)
    requires HasFrame(s)
    ensures var x, tail := s[2..2 + FrameLength(s)], s[2 + FrameLength(s)..];
            && Frames(s) == [x] + Frames(tail) && Rest(s) == Rest(tail)
            && |x| < 0x1_0000 && s == [|x| / 0x100, |x| % 0x100] + x + tail
  {
    var n := FrameLength(s);
    assert s == [s[0], s[1]] + s[2..2 + n] + s[2 + n..];
  }

  /** More of the stream gives more frames: those that begin with what was left over. */
  lemma {:induction false} FramesMore(s: seq<byte>, t: seq<byte>)
    ensures Frames(s + t) == Frames(s) + Frames(Rest(s) + t) && Rest(s + t) == Rest(Rest(s) + t)
    decreases |s|
  {
    hide Frames, Rest, FrameLength;
    if HasFrame(s) {
      FrameBehind(s, t);
      FirstFrame(s);
      FirstFrame(s + t);
      var x, tail := s[2..2 + FrameLength(s)], s[2 + FrameLength(s)..];
      FramesMore(tail, t);
      assert [x] + (Frames(tail) + Frames(Rest(tail) + t)) == [x] + Frames(tail) + Frames(Rest(tail) + t);
    } else {
      NoFrame(s);
      assert [] + Frames(s + t) == Frames(s + t);
    }
  }

  lemma ShortFrames(x: seq<byte>, more: seq<seq<byte>>)
    requires |x| < 0x1_0000 && forall k :: 0 <= k < |more| ==> |more[k]| < 0x1_0000
    ensures var all := [x] + more;
            (forall k :: 0 <= k < |all| ==> |all[k]| < 0x1_0000)
            && Framed(all) == [|x| / 0x100, |x| % 0x100] + x + Framed(more)
  {
    var all := [x] + more;
    assert all[1..] == more;
  }

  /** Every stream is its frames, and what is left over. */
  lemma {:induction false} StreamIsFrames(s: seq<byte>)
    ensures forall k :: 0 <= k < |Frames(s)| ==> |Frames(s)[k]| < 0x1_0000
    ensures s == Framed(Frames(s)) + Rest(s)
    decreases |s|
  {
    hide Frames, Rest, FrameLength, Framed;
    if HasFrame(s) {
      var x, tail := s[2..2 + FrameLength(s)], s[2 + FrameLength(s)..];
      FirstFrame(s);
      StreamIsFrames(tail);
      ShortFrames(x, Frames(tail));
      var head := [|x| / 0x100, |x| % 0x100] + x;
      assert head + (Framed(Frames(tail)) + Rest(tail)) == head + Framed(Frames(tail)) + Rest(tail);
    } else {
      NoFrame(s);
      assert [] + s == s;
    }
  }

  /** Messages that are sent with their lengths are what is received. */
  lemma {:induction false} FramesOfFramed(frames: seq<seq<byte>>)
    requires forall k :: 0 <= k < |frames| ==> |frames[k]| < 0x1_0000
    ensures Frames(Framed(frames)) == frames && Rest(Framed(frames)) == []
  {
    if frames != [] {
      var x, more := frames[0], Framed(frames[1..]);
      var s := Framed(frames);
      FramesOfFramed(frames[1..]);
      assert FrameLength(s) == |x|;
      assert s[2..2 + |x|] == x && s[2 + |x|..] == more;
      assert frames == [x] + frames[1..];
    }
  }

  lemma MessageTaken(stream: seq<byte>, messages: seq<seq<byte>>, t: seq<byte>)
    requires HasFrame(t) && Frames(stream) == messages + Frames(t) && Rest(stream) == Rest(t)
    ensures var more, tail := messages + [t[2..2 + FrameLength(t)]], t[2 + FrameLength(t)..];
            more <= Frames(stream) && Frames(stream) == more + Frames(tail) && Rest(stream) == Rest(tail)
  {
    hide Frames, Rest, FrameLength;
    FirstFrame(t);
    var x, tail := t[2..2 + FrameLength(t)], t[2 + FrameLength(t)..];
    assert messages + ([x] + Frames(tail)) == messages + [x] + Frames(tail);
  }

  // ----- reading -----

  /** The connection: what was read is `buf[skip..used]`. `stream` is all that was ever read from it and
      `messages` what was handed on. */
  class Connection {
    var buf: array<byte>
    var used: nat
    var skip: nat
    var ok: bool
    ghost var stream: seq<byte>
    ghost var messages: seq<seq<byte>>

    ghost predicate Bounds()
      reads this
    {
      skip <= used <= buf.Length
    }

    /** The state between two calls. */
    ghost predicate Valid()
      reads this, buf
    {
      && Bounds() && skip == 0
      && if ok then messages == Frames(stream) && buf[..used] == Rest(stream)
         else messages <= Frames(stream) && used == 0
    }

    constructor ()
      ensures Valid() && ok && stream == [] && messages == [] && fresh(buf)
    {
      buf, used, skip, ok := new byte[0], 0, 0, true;
      stream, messages := [], [];
      new;
      assert buf[..used] == [];
    }

    /** `adns__vbuf_ensure`: the buffer may move. */
    method Ensure(want: nat) returns (done: bool)
      requires Bounds()
      modifies this`buf
      ensures done ==> buf.Length >= want
      ensures Bounds() && buf[..used] == old(buf[..used]) && (buf == old(buf) || fresh(buf))
    {
      if buf.Length >= want {
        return true;
      }
      done := *;
      if done {
        var bigger := new byte[want];
        for i := 0 to used
          modifies bigger
          invariant bigger[..i] == buf[..i]
        {
          bigger[i] := buf[i];
          assert bigger[..i + 1] == bigger[..i] + [buf[i]];
          assert buf[..i + 1] == buf[..i] + [buf[i]];
        }
        buf := bigger;
      }
    }

    /** The bytes that were used go, and the others move to the front. */
    method Compact()
      requires Bounds()
      modifies this`used, this`skip, buf
      ensures Bounds() && skip == 0 && used == old(used - skip) && buf[..used] == old(buf[skip..used])
    {
      var from, len := skip, used - skip;
      ghost var was := buf[from..from + len];
      for i := 0 to len
        modifies buf
        invariant forall j :: 0 <= j < i ==> buf[j] == was[j]
        invariant forall j :: i <= j < len ==> buf[from + j] == was[j]
      {
        buf[i] := buf[from + i];
      }
      used, skip := len, 0;
    }

    /** The part of the stream that is in the buffer and was not used. */
    ghost predicate Holds()
      reads this, buf
    {
      Bounds() && Frames(stream) == messages + Frames(buf[skip..used]) && Rest(stream) == Rest(buf[skip..used])
    }

    /** The length of the message in the buffer. */
    method DgramLen() returns (dgramlen: nat)
      requires Bounds() && HasFrame(buf[skip..used])
      ensures dgramlen == FrameLength(buf[skip..used]) && skip + 2 + dgramlen <= used
    {
      ghost var t := buf[skip..used];
      assert t[0] == buf[skip] && t[1] == buf[skip + 1];
      var high: int := buf[skip];
      dgramlen := high * 0x100 + buf[skip + 1];
    }

    /** A message is taken from the buffer and handed on. What is done with it may break the connection,
        which empties the buffer while it is in use. */
    method HandOn()
      requires Holds() && ok && HasFrame(buf[skip..used])
      modifies this`skip, this`used, this`ok, this`messages
      ensures messages == old(messages) + [old(buf[skip..used])[2..2 + FrameLength(old(buf[skip..used]))]]
      ensures if ok then Holds() && skip > old(skip) && used == old(used)
              else used == 0 == skip && messages <= Frames(stream)
    {
      hide Frames, Rest, FrameLength;
      ghost var t, n := buf[skip..used], FrameLength(buf[skip..used]);
      var dgramlen := DgramLen();
      MessageTaken(stream, messages, t);
      var oldSkip := skip;
      skip := skip + 2 + dgramlen;
      messages := messages + [buf[oldSkip + 2..oldSkip + 2 + dgramlen]];
      assert buf[oldSkip + 2..oldSkip + 2 + dgramlen] == t[2..2 + n] && buf[skip..used] == t[2 + n..];
      var breaks: bool := *;
      if breaks {
        used, skip, ok := 0, 0, false;
      }
    }

    /** The rest of the buffer is no message; it moves to the front, and there will be room for more. */
    method MakeRoom(want: nat) returns (done: bool)
      requires Holds() && ok && !HasFrame(buf[skip..used]) && want > used - skip
      modifies this`buf, this`used, this`skip, buf
      ensures Valid() && Holds() && messages == Frames(stream) && used == old(used - skip)
      ensures (done ==> used < buf.Length) && (buf == old(buf) || fresh(buf))
    {
      hide Frames, Rest, FrameLength;
      ghost var t := buf[skip..used];
      Compact();
      assert buf[skip..used] == t;
      done := Ensure(want);
      assert buf[skip..used] == buf[..used] == t;
      Settled(t);
    }

    /** `read`: some of what has come in is put behind what is in the buffer. */
    method Receive(incoming: seq<byte>) returns (r: nat)
      requires Holds() && used < buf.Length && incoming != []
      modifies this`used, this`stream, buf
      ensures Holds() && 1 <= r <= |incoming| && skip <= used && stream == old(stream) + incoming[..r]
    {
      hide Frames, Rest;
      r :| 1 <= r <= |incoming| && r <= buf.Length - used;
      ghost var t := buf[skip..used];
      for i := 0 to r
        modifies buf
        invariant forall j :: 0 <= j < used ==> buf[j] == old(buf[j])
        invariant forall j :: 0 <= j < i ==> buf[used + j] == incoming[j]
      {
        buf[used + i] := incoming[i];
      }
      used := used + r;
      assert buf[skip..used] == t + incoming[..r];
      FramesMore(stream, incoming[..r]);
      FramesMore(t, incoming[..r]);
      stream := stream + incoming[..r];
      assert messages + (Frames(t) + Frames(Rest(t) + incoming[..r])) ==
        messages + Frames(t) + Frames(Rest(t) + incoming[..r]);
    }

    /** The loop of `adns_processreadable`. `incoming` is what the peer has sent and was not read before,
        of which `taken` bytes are read, in pieces of any size; reading is interrupted `interrupts` times
        at most. The loop ends when there is nothing more to read, or for want of memory, or with the
        connection, whose buffer is then empty: when reading fails, or when what is done with a message
        breaks it (`during`). While the connection stands, exactly the complete frames were handed on, and
        also when reading broke it; otherwise, the first of them. */
    method ProcessReadable(incoming: seq<byte>, interrupts: nat) returns (taken: nat, during: bool)
      requires Valid() && ok
      modifies this, buf
      ensures Valid() && taken <= |incoming| && stream == old(stream) + incoming[..taken]
      ensures ok || !during ==> messages == Frames(stream)
      ensures !ok ==> used == 0 == skip && messages <= Frames(stream)
      ensures buf == old(buf) || fresh(buf)
    {
      hide Frames, Rest, FrameLength;
      taken, during := 0, false;
      var left := interrupts;
      NothingUsed();
      while ok
        invariant taken <= |incoming| && stream == old(stream) + incoming[..taken]
        invariant if ok then Holds() && !during else Valid() && (!during ==> messages == Frames(stream))
        invariant buf == old(buf) || fresh(buf)
        decreases ok, |incoming| - taken, used - skip, left
      {
        FrameHere();
        var want := 2;
        if used >= skip + 2 {
          var high: int := buf[skip];
          var dgramlen: nat := high * 0x100 + buf[skip + 1];
          if used >= skip + 2 + dgramlen {
            HandOn();
            during := !ok;
            continue;
          }
          want := 2 + dgramlen;
        }
        var done := MakeRoom(want);
        if !done {
          return;
        }
        var interrupted: bool := *;
        if interrupted && left > 0 {
          left := left - 1;
          continue;
        }
        var fails: bool := *;
        if fails {
          used, ok := 0, false;
        } else if taken == |incoming| {
          return;
        } else {
          var r := Receive(incoming[taken..]);
          assert incoming[..taken] + incoming[taken..][..r] == incoming[..taken + r];
          taken := taken + r;
        }
      }
    }

    lemma NothingUsed()
      requires Valid() && ok
      ensures Holds()
    {
      assert buf[skip..used] == buf[..used];
      NoFrame(buf[..used]);
      assert Rest(Rest(stream)) == Rest(stream);
      assert messages + [] == messages;
    }

    /** Whether there is a message, as the code sees it. */
    lemma FrameHere()
      requires Bounds()
      ensures var t := buf[skip..used];
              HasFrame(t) <==> used >= skip + 2 && used >= skip + 2 + (buf[skip] as int * 0x100 + buf[skip + 1])
    {
      var t := buf[skip..used];
      assert |t| >= 2 ==> t[0] == buf[skip] && t[1] == buf[skip + 1];
    }

    /** Without a complete message in the buffer, all messages of the stream were handed on. */
    lemma Settled(t: seq<byte>)
      requires Holds() && ok && skip == 0 && t == buf[..used] && !HasFrame(t)
      ensures Valid() && messages == Frames(stream)
    {
      assert buf[skip..used] == t;
      NoFrame(t);
      assert messages + [] == messages;
    }
  }

  lemma NoFrame(t: seq<byte>)
    ensures !HasFrame(t) ==> Frames(t) == [] && Rest(t) == t
    ensures Framed([]) == []
  {
  }
}
