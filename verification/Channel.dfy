/** The byte channel of components/tailscale/ts2021_upgrade.cpp as an object: its receive buffer, the one payload
    buffer it shares between reading and decoding, and the TLS connection below it. */
module Channel {
  import opened Bytes
  import opened WebSocket

  /** The connection's side of each coming call: what a read returns, and how much a write takes.
      Nothing at all stands for a failure, a timeout or a close. */
  class Tls {
    var incoming: seq<bytes>
    var accepts: seq<nat>
    var written: bytes

    constructor (incoming: seq<bytes>, accepts: seq<nat>)
      ensures this.incoming == incoming && this.accepts == accepts && written == []
    {
      this.incoming, this.accepts, written := incoming, accepts, [];
    }

    method Write(data: bytes) returns (n: nat)
      modifies this`accepts, this`written
      ensures n <= |data| && written == old(written) + data[..n]
    {
      n := 0;
      if accepts != [] {
        n := Min(accepts[0], |data|);
        accepts := accepts[1..];
      }
      written := written + data[..n];
    }

    /** Fills the front of a buffer. */
    method Read(buffer: array<byte>) returns (n: nat)
      requires incoming != [] ==> |incoming[0]| <= buffer.Length
      modifies this`incoming, buffer
      ensures n <= buffer.Length
      ensures if old(incoming) == [] then n == 0 && incoming == [] else buffer[..n] == old(incoming[0]) && incoming == old(incoming[1..])
    {
      n := 0;
      if incoming != [] {
        n := |incoming[0]|;
        Blit(buffer, 0, incoming[0]);
        incoming := incoming[1..];
      }
    }
  }

  predicate ReadsWithin(incoming: seq<bytes>, max: nat) { forall i :: 0 <= i < |incoming| ==> |incoming[i]| <= max }

  /** A read before the upgrade: whatever is buffered, up to max bytes, after one more read if there was nothing. */
  function ReadPlain(buffer: bytes, incoming: seq<bytes>, max: nat): ReadResult {
    if buffer != [] then ReadResult(max > 0, buffer[..Min(max, |buffer|)], buffer[Min(max, |buffer|)..], incoming)
    else if incoming == [] then ReadResult(false, [], [], [])
    else if incoming[0] == [] then ReadResult(false, [], [], incoming[1..])
    else ReadResult(max > 0, incoming[0][..Min(max, |incoming[0]|)], incoming[0][Min(max, |incoming[0]|)..], incoming[1..])
  }

  function ReadChannel(upgraded: bool, buffer: bytes, incoming: seq<bytes>, max: nat): ReadResult {
    if upgraded then ReadFrame(buffer, incoming) else ReadPlain(buffer, incoming, max)
  }

  predicate Serves(upgraded: bool, buffer: bytes) { if upgraded then Decode(buffer).1 > 0 else buffer != [] }

  /** When the buffer does not serve a read, the next read of the connection decides. */
  lemma ReadStops(upgraded: bool, buffer: bytes, incoming: seq<bytes>, max: nat)
    requires !Serves(upgraded, buffer) && max > 0
    ensures ReadChannel(upgraded, buffer, incoming, max)
         == if incoming == [] then ReadResult(false, [], buffer, [])
            else if incoming[0] == [] then ReadResult(false, [], buffer, incoming[1..])
            else ReadChannel(upgraded, buffer + incoming[0], incoming[1..], max)
  {
    hide Decode;
    assert !upgraded ==> forall s: bytes :: buffer + s == s;
  }

  class Ts2021Upgrade {
    const tls: Tls?
    const payloadBuffer: array<byte>
    var upgradeComplete: bool
    var recvBuffer: bytes

    ghost predicate Valid() reads this { payloadBuffer.Length == PAYLOAD_BUFFER }

    constructor (tls: Tls?)
      ensures Valid() && this.tls == tls && fresh(payloadBuffer) && recvBuffer == [] && !upgradeComplete
    {
      this.tls, upgradeComplete, recvBuffer := tls, false, [];
      payloadBuffer := new byte[PAYLOAD_BUFFER];
    }

    method ExtendedLength(data: bytes) returns (len: nat)
      requires |data| >= 10
      ensures len == FromBe(data[2..10])
    {
      len := 0;
      var i := 0;
      while i < 8
        invariant i <= 8 && len == FromBe(data[2..2 + i])
      {
        assert data[2..2 + (i + 1)][..i] == data[2..2 + i];
        len := len * 256 + data[2 + i] as nat;
        i := i + 1;
      }
    }

    method DecodeHeader(data: bytes) returns (found: bool, h: Header)
      ensures ParseHeader(data) == if found then Some(h) else None
    {
      h := Header(0, false, 0, 0);
      if |data| < 2 {
        return false, h;
      }
      var masked := data[1] >= 128;
      var len, size: nat := data[1] % 128, 2;
      if len == 126 {
        if |data| < 4 {
          return false, h;
        }
        assert data[2..4][..1] == [data[2]] && FromBe([data[2]]) == data[2] as nat;
        len, size := data[2] as nat * 256 + data[3] as nat, 4;
      } else if len == 127 {
        if |data| < 10 {
          return false, h;
        }
        len := ExtendedLength(data);
        size := 10;
      }
      if masked {
        size := size + 4;
      }
      return true, Header(data[0] % 16, masked, len, size);
    }

    /** Takes the mask off into the payload buffer. */
    method Unmask(body: bytes, mask: bytes)
      requires Valid() && |body| <= PAYLOAD_BUFFER && |mask| == 4
      modifies payloadBuffer
      ensures payloadBuffer[..|body|] == Masked(body, mask)
    {
      var i := 0;
      while i < |body|
        invariant i <= |body| && payloadBuffer[..i] == Masked(body, mask)[..i]
      {
        payloadBuffer[i] := Xor(body[i], mask[i % 4]);
        i := i + 1;
      }
    }

    method DecodeFrame(data: bytes) returns (payload: bytes, consumed: nat)
      requires Valid()
      modifies payloadBuffer
      ensures (payload, consumed) == Decode(data)
    {
      hide ParseHeader, Masked;
      payload, consumed := [], 0;
      var found, h := DecodeHeader(data);
      if !found {
        return;
      }
      HeaderSize(data);
      var whole := (h.size + h.len) % TWO64;
      if |data| < whole {
        return;
      }
      if h.opcode == 8 {
        consumed := whole;
        return;
      }
      if h.len > PAYLOAD_BUFFER {
        return;
      }
      var body := data[h.size..h.size + h.len];
      if h.masked {
        MaskAtEnd(data);
        Unmask(body, data[h.size - 4..h.size]);
      } else {
        Blit(payloadBuffer, 0, body);
        assert payloadBuffer[..h.len] == body;
      }
      payload := payloadBuffer[..h.len];
      consumed := h.size + h.len;
    }

    lemma HeaderSize(data: bytes)
      ensures ParseHeader(data).Some? ==> ParseHeader(data).value.size <= 14
    {
    }

    lemma MaskAtEnd(data: bytes)
      ensures ParseHeader(data).Some? && ParseHeader(data).value.masked ==> ParseHeader(data).value.size >= 6
    {
    }

    /** Sends all the bytes, framed once the upgrade is complete.  If the connection gives up on the way, only
        a proper prefix has gone out. */
    method WriteRaw(data: bytes, mask: bytes) returns (ok: bool)
      requires |mask| == 4 && |data| < TWO64
      modifies if tls == null then {} else {tls}
      ensures tls == null || data == [] ==> !ok
      ensures tls != null ==> tls.incoming == old(tls.incoming)
      ensures tls != null && data != [] ==>
        var wire := if upgradeComplete then Frame(data, mask, true) else data;
        if ok then tls.written == old(tls.written) + wire
        else exists k: nat {:trigger wire[..k]} :: k < |wire| && tls.written == old(tls.written) + wire[..k]
    {
      if tls == null || data == [] {
        return false;
      }
      var wire := data;
      if upgradeComplete {
        wire := EncodeFrame(data, mask, true);
      }
      ok := WriteAll(wire);
    }

    method WriteAll(wire: bytes) returns (ok: bool)
      requires tls != null
      modifies tls`accepts, tls`written
      ensures if ok then tls.written == old(tls.written) + wire
              else exists k: nat {:trigger wire[..k]} :: k < |wire| && tls.written == old(tls.written) + wire[..k]
    {
      var n := 0;
      while n < |wire|
        invariant n <= |wire| && tls.written == old(tls.written) + wire[..n]
        decreases |wire| - n
      {
        var ret := tls.Write(wire[n..]);
        if ret == 0 {
          assert wire[..n] + wire[n..][..0] == wire[..n];
          return false;
        }
        assert wire[..n] + wire[n..][..ret] == wire[..n + ret];
        n := n + ret;
      }
      assert wire[..n] == wire;
      return true;
    }

    /** Serves a read from what is buffered, if that is enough. */
    method FromBuffer(max: nat) returns (done: bool, ok: bool, out: bytes)
      requires Valid() && max > 0
      modifies this`recvBuffer, payloadBuffer
      ensures done <==> Serves(upgradeComplete, old(recvBuffer))
      ensures !done ==> recvBuffer == old(recvBuffer)
      ensures forall incoming :: done ==>
        ReadResult(ok, out, recvBuffer, incoming) == ReadChannel(upgradeComplete, old(recvBuffer), incoming, max)
    {
      done, ok, out := false, false, [];
      if upgradeComplete && recvBuffer != [] {
        var payload, consumed := DecodeFrame(recvBuffer);
        if consumed > 0 {
          recvBuffer := recvBuffer[consumed..];
          return true, payload != [], payload;
        }
      }
      if !upgradeComplete && recvBuffer != [] {
        var n := Min(max, |recvBuffer|);
        out := recvBuffer[..n];
        recvBuffer := recvBuffer[n..];
        return true, out != [], out;
      }
    }

    /** Reads one message: a whole frame's payload after the upgrade, buffered bytes before it. */
    method ReadRaw(max: nat) returns (ok: bool, out: bytes)
      requires Valid() && (tls != null ==> ReadsWithin(tls.incoming, Min(max, PAYLOAD_BUFFER)))
      modifies this`recvBuffer, payloadBuffer, if tls == null then {} else {tls}
      ensures tls == null || max == 0 ==> !ok && out == [] && recvBuffer == old(recvBuffer)
      ensures tls != null ==> tls.written == old(tls.written) && ReadsWithin(tls.incoming, PAYLOAD_BUFFER)
      ensures tls != null && max > 0 ==>
        ReadResult(ok, out, recvBuffer, tls.incoming)
        == ReadChannel(upgradeComplete, old(recvBuffer), old(tls.incoming), max)
    {
      hide ReadChannel, Serves;
      if tls == null || max == 0 {
        return false, [];
      }
      var more := true;
      while more
        invariant ReadsWithin(tls.incoming, PAYLOAD_BUFFER) && tls.written == old(tls.written)
        invariant ReadChannel(upgradeComplete, recvBuffer, tls.incoming, max)
               == ReadChannel(upgradeComplete, old(recvBuffer), old(tls.incoming), max)
        decreases |tls.incoming|
      {
        var done;
        done, ok, out := FromBuffer(max);
        if done {
          return;
        }
        ReadStops(upgradeComplete, recvBuffer, tls.incoming, max);
        more := ReadMore();
        if !more {
          return false, [];
        }
      }
    }

    /** One read of the connection, put behind what is buffered. */
    method ReadMore() returns (more: bool)
      requires Valid() && tls != null && ReadsWithin(tls.incoming, PAYLOAD_BUFFER)
      modifies this`recvBuffer, payloadBuffer, tls`incoming
      ensures more == (old(tls.incoming) != [] && old(tls.incoming)[0] != [])
      ensures tls.incoming == if old(tls.incoming) == [] then [] else old(tls.incoming)[1..]
      ensures recvBuffer == old(recvBuffer) + (if more then old(tls.incoming)[0] else [])
    {
      var n := tls.Read(payloadBuffer);
      recvBuffer := recvBuffer + payloadBuffer[..n];
      return n > 0;
    }
  }
}
