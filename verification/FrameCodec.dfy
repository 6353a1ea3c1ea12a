/** Length-prefixed messages over a byte stream that delivers its bytes in pieces of any size. */
module FrameCodec {
  import opened Prelude

  type Byte = b: int | 0 <= b < 256

  const LENGTH_LIMIT := 0x1_0000_0000

  datatype WireError = LengthOverflow | ConnectionClosed

  // ---------------------------------------------------------------------------
  // Lengths

  function BigEndian(n: nat): (bytes: seq<Byte>)
    requires n < LENGTH_LIMIT
  {
    [n / 0x100 / 0x100 / 0x100, n / 0x100 / 0x100 % 0x100, n / 0x100 % 0x100, n % 0x100]
  }

  function FromBigEndian(bytes: seq<Byte>): nat {
    if bytes == [] then 0 else FromBigEndian(bytes[..|bytes| - 1]) * 0x100 + bytes[|bytes| - 1]
  }

  lemma FromFour(a: Byte, b: Byte, c: Byte, d: Byte)
    ensures FromBigEndian([a, b, c, d]) == ((a * 0x100 + b) * 0x100 + c) * 0x100 + d
  {
    assert [a, b, c, d][..3] == [a, b, c] && [a, b, c][..2] == [a, b] && [a, b][..1] == [a] && [a][..0] == [];
    assert FromBigEndian([a]) == a;
    assert FromBigEndian([a, b]) == a * 0x100 + b;
    assert FromBigEndian([a, b, c]) == (a * 0x100 + b) * 0x100 + c;
  }

  lemma LastDigit(q: nat, d: Byte)
    ensures (q * 0x100 + d) / 0x100 == q && (q * 0x100 + d) % 0x100 == d
  {
  }

  lemma Split(n: nat)
    ensures n == n / 0x100 * 0x100 + n % 0x100
  {
  }

  /** Four bytes and the lengths below 2^32 correspond one to one. */
  lemma LengthRoundTrip(n: nat)
    requires n < LENGTH_LIMIT
    ensures |BigEndian(n)| == 4 && FromBigEndian(BigEndian(n)) == n
  {
    hide FromBigEndian;
    var q := n / 0x100;
    FromFour(q / 0x100 / 0x100, q / 0x100 % 0x100, q % 0x100, n % 0x100);
    Split(n);
    Split(q);
    Split(q / 0x100);
  }

  lemma BytesRoundTrip(bytes: seq<Byte>)
    requires |bytes| == 4
    ensures FromBigEndian(bytes) < LENGTH_LIMIT && BigEndian(FromBigEndian(bytes)) == bytes
  {
    hide FromBigEndian;
    var a: int, b: int, c: int, d: int := bytes[0], bytes[1], bytes[2], bytes[3];
    assert bytes == [a, b, c, d];
    FromFour(a, b, c, d);
    var high: nat := a as int * 0x100 + b;
    LastDigit(a, b);
    LastDigit(high, c);
    LastDigit(high * 0x100 + c, d);
  }

  // ---------------------------------------------------------------------------
  // Frames

  predicate Sendable(payload: seq<Byte>) {
    |payload| < LENGTH_LIMIT
  }

  function Frame(payload: seq<Byte>): seq<Byte>
    requires Sendable(payload)
  {
    BigEndian(|payload|) + payload
  }

  function Stream(payloads: seq<seq<Byte>>): seq<Byte>
    requires forall p :: p in payloads ==> Sendable(p)
  {
    if payloads == [] then [] else Frame(payloads[0]) + Stream(payloads[1..])
  }

  /** Read so many bytes, or consume what there is and fail. */
  function Exactly(bytes: seq<Byte>, size: nat): (Result<seq<Byte>, WireError>, seq<Byte>) {
    if |bytes| >= size then (Ok(bytes[..size]), bytes[size..]) else (Err(ConnectionClosed), [])
  }

  function Received(bytes: seq<Byte>): (Result<seq<Byte>, WireError>, seq<Byte>) {
    var head := Exactly(bytes, 4);
    if head.0.Err? then head else Exactly(head.1, FromBigEndian(head.0.value))
  }

  /** The messages read until the connection fails. */
  function AllReceived(bytes: seq<Byte>): seq<seq<Byte>>
    decreases |bytes|
  {
    var first := Received(bytes);
    if first.0.Err? then [] else [first.0.value] + AllReceived(first.1)
  }

  lemma ReceivesFrame(payload: seq<Byte>, rest: seq<Byte>)
    requires Sendable(payload)
    ensures Received(Frame(payload) + rest) == (Ok(payload), rest)
  {
    hide BigEndian, FromBigEndian;
    var header := BigEndian(|payload|);
    LengthRoundTrip(|payload|);
    assert Frame(payload) + rest == header + (payload + rest);
    assert (header + (payload + rest))[..4] == header && (header + (payload + rest))[4..] == payload + rest;
    assert (payload + rest)[..|payload|] == payload && (payload + rest)[|payload|..] == rest;
  }

  /** What is received was sent: the bytes consumed are the frame of the payload. */
  lemma ReceivedWasFramed(bytes: seq<Byte>)
    ensures var (r, rest) := Received(bytes);
      r.Ok? ==> Sendable(r.value) && bytes == Frame(r.value) + rest
  {
    hide BigEndian, FromBigEndian;
    if |bytes| >= 4 {
      BytesRoundTrip(bytes[..4]);
      var size := FromBigEndian(bytes[..4]);
      assert bytes == bytes[..4] + bytes[4..];
      assert |bytes| >= 4 + size ==> bytes[4..] == bytes[4..][..size] + bytes[4..][size..];
    }
  }

  /** Every list of payloads arrives as it was sent, in order. */
  lemma {:induction false} StreamArrives(payloads: seq<seq<Byte>>)
    requires forall p :: p in payloads ==> Sendable(p)
    ensures AllReceived(Stream(payloads)) == payloads
  {
    hide Received, Frame;
    if payloads == [] {
      NothingReceived([]);
    } else {
      ReceivesFrame(payloads[0], Stream(payloads[1..]));
      StreamArrives(payloads[1..]);
    }
  }

  lemma NothingReceived(bytes: seq<Byte>)
    requires |bytes| < 4
    ensures Received(bytes) == (Err(ConnectionClosed), [])
  {
  }

  /** A stream cut anywhere gives the messages that arrived whole and then an error. */
  lemma {:induction false} CutStreamArrives(payloads: seq<seq<Byte>>, n: nat) returns (k: nat)
    requires forall p :: p in payloads ==> Sendable(p)
    requires n < |Stream(payloads)|
    ensures k < |payloads| && |Stream(payloads[..k])| <= n < |Stream(payloads[..k + 1])|
    ensures AllReceived(Stream(payloads)[..n]) == payloads[..k]
    decreases |payloads|
  {
    hide Received, Frame, BigEndian;
    var first, rest := Frame(payloads[0]), Stream(payloads[1..]);
    var cut := Stream(payloads)[..n];
    assert Stream(payloads[..1]) == first by {
      assert payloads[..1] == [payloads[0]] && payloads[..1][1..] == [];
    }
    if n < |first| {
      k := 0;
      assert cut == first[..n];
      CutFrame(payloads[0], n);
      assert AllReceived(cut) == [];
    } else {
      var m := n - |first|;
      assert cut == first + rest[..m];
      var j := CutStreamArrives(payloads[1..], m);
      k := j + 1;
      ReceivesFrame(payloads[0], rest[..m]);
      assert payloads[..k][1..] == payloads[1..][..j] && payloads[..k + 1][1..] == payloads[1..][..j + 1];
      assert payloads[..k] == [payloads[0]] + payloads[1..][..j];
    }
  }

  lemma CutFrame(payload: seq<Byte>, n: nat)
    requires Sendable(payload) && n < |Frame(payload)|
    ensures Received(Frame(payload)[..n]).0 == Err(ConnectionClosed)
  {
    hide BigEndian, FromBigEndian;
    LengthRoundTrip(|payload|);
    var cut := Frame(payload)[..n];
    if n >= 4 {
      assert cut[..4] == BigEndian(|payload|);
    }
  }

  // ---------------------------------------------------------------------------
  // The loops of the source

  function Flatten(pieces: seq<seq<Byte>>): seq<Byte> {
    if pieces == [] then [] else pieces[0] + Flatten(pieces[1..])
  }

  lemma {:induction false} FlattenAppend(pieces: seq<seq<Byte>>, piece: seq<Byte>)
    ensures Flatten(pieces + [piece]) == Flatten(pieces) + piece
  {
    if pieces == [] {
      assert [piece][1..] == [];
    } else {
      FlattenAppend(pieces[1..], piece);
      assert (pieces + [piece])[1..] == pieces[1..] + [piece];
    }
  }

  /** One direction of a connection. */
  class Channel {
    var pieces: seq<seq<Byte>>

    constructor (pieces: seq<seq<Byte>>)
      ensures this.pieces == pieces
    {
      this.pieces := pieces;
    }

    predicate Valid()
      reads this
    {
      forall k :: 0 <= k < |pieces| ==> pieces[k] != []
    }

    function Bytes(): seq<Byte>
      reads this
    {
      Flatten(pieces)
    }

    /** Some bytes, at most `size`; none only when the connection is closed. */
    method Recv(size: nat) returns (piece: seq<Byte>)
      requires Valid() && size > 0
      modifies this
      ensures Valid() && |piece| <= size && old(Bytes()) == piece + Bytes()
      ensures piece == [] <==> old(Bytes()) == []
    {
      if pieces == [] {
        return [];
      }
      var first := pieces[0];
      if |first| <= size {
        pieces := pieces[1..];
        return first;
      }
      pieces := [first[size..]] + pieces[1..];
      assert pieces[1..] == old(pieces)[1..];
      return first[..size];
    }

    method ReadExact(size: nat) returns (r: Result<seq<Byte>, WireError>)
      requires Valid()
      modifies this
      ensures Valid() && (r, Bytes()) == Exactly(old(Bytes()), size)
    {
      var chunks := [];
      while |chunks| < size
        invariant Valid() && |chunks| <= size && old(Bytes()) == chunks + Bytes()
      {
        ghost var before := Bytes();
        var piece := Recv(size - |chunks|);
        if piece == [] {
          assert before == [] && Bytes() == [];
          return Err(ConnectionClosed);
        }
        assert chunks + (piece + Bytes()) == (chunks + piece) + Bytes();
        chunks := chunks + piece;
      }
      return Ok(chunks);
    }

    method RecvMessage() returns (r: Result<seq<Byte>, WireError>)
      requires Valid()
      modifies this
      ensures Valid() && (r, Bytes()) == Received(old(Bytes()))
    {
      var header := ReadExact(4);
      if header.Err? {
        return header;
      }
      r := ReadExact(FromBigEndian(header.value));
    }

    /** Read messages until the connection fails. */
    method RecvAll() returns (payloads: seq<seq<Byte>>)
      requires Valid()
      modifies this
      ensures Valid() && payloads == AllReceived(old(Bytes()))
    {
      hide Received, Flatten;
      payloads := [];
      while true
        invariant Valid() && AllReceived(old(Bytes())) == payloads + AllReceived(Bytes())
        decreases |Bytes()|
      {
        ghost var before := Bytes();
        var r := RecvMessage();
        if r.Err? {
          assert payloads + AllReceived(before) == payloads;
          return;
        }
        Shorter(before);
        assert payloads + ([r.value] + AllReceived(Bytes())) == (payloads + [r.value]) + AllReceived(Bytes());
        payloads := payloads + [r.value];
      }
    }

    method SendMessage(payload: seq<Byte>) returns (r: Result<(), WireError>)
      requires Valid()
      modifies this
      ensures Valid() && (r.Ok? <==> Sendable(payload))
      ensures Bytes() == if Sendable(payload) then old(Bytes()) + Frame(payload) else old(Bytes())
    {
      if |payload| >= LENGTH_LIMIT {
        return Err(LengthOverflow);
      }
      FlattenAppend(pieces, Frame(payload));
      pieces := pieces + [BigEndian(|payload|) + payload];
      return Ok(());
    }
  }

  lemma Shorter(bytes: seq<Byte>)
    ensures Received(bytes).0.Ok? ==> |Received(bytes).1| < |bytes|
  {
  }
}
