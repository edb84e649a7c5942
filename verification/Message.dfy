/** The 22-byte wire header of message.h: packed, little-endian, copied with memcpy. */
module Message {
  import opened Words

  const HEADER := 22
  const TYPE_OFFSET := 13
  const REQUEST: byte := 1
  const RESPONSE: byte := 2
  const MAX_PAYLOAD_SIZE := 4 * 1024 * 1024

  datatype Header = Header(id: u64, payloadSize: u32, priority: byte, kind: byte, sendTs: u64)

  /** 256 to the power n. */
  function Base(n: nat): (r: nat)
    ensures r >= 1
  {
    if n == 0 then 1 else 256 * Base(n - 1)
  }

  function ToLE(v: nat, n: nat): (bs: seq<byte>)
    ensures |bs| == n
  {
    if n == 0 then [] else [v % 256] + ToLE(v / 256, n - 1)
  }

  function FromLE(bs: seq<byte>): (v: nat)
    ensures v < Base(|bs|)
  {
    if bs == [] then 0 else bs[0] + 256 * FromLE(bs[1..])
  }

  lemma {:induction false} FromToLE(v: nat, n: nat)
    requires v < Base(n)
    ensures FromLE(ToLE(v, n)) == v
  {
    if n > 0 {
      FromToLE(v / 256, n - 1);
      assert ToLE(v, n)[1..] == ToLE(v / 256, n - 1);
    }
  }

  lemma {:induction false} ToFromLE(bs: seq<byte>)
    ensures ToLE(FromLE(bs), |bs|) == bs
  {
    if bs != [] {
      ToFromLE(bs[1..]);
      LowByte(bs[0], FromLE(bs[1..]));
      assert bs == [bs[0]] + bs[1..];
    }
  }

  lemma LowByte(b: byte, v: nat)
    ensures (b + 256 * v) % 256 == b && (b + 256 * v) / 256 == v
  {
  }

  lemma Widths()
    ensures Base(4) == U32 && Base(8) == U64
  {
  }

  function Serialize(h: Header): (bs: seq<byte>)
    ensures |bs| == HEADER
  {
    ToLE(h.id, 8) + ToLE(h.payloadSize, 4) + [h.priority, h.kind] + ToLE(h.sendTs, 8)
  }

  function Deserialize(bs: seq<byte>): Header
    requires |bs| == HEADER
  {
    Widths();
    Header(FromLE(bs[0..8]), FromLE(bs[8..12]), bs[12], bs[TYPE_OFFSET], FromLE(bs[14..22]))
  }

  /** Where each field of the header lies in the 22 bytes. */
  lemma Layout(h: Header)
    ensures var bs := Serialize(h);
      && bs[0..8] == ToLE(h.id, 8) && bs[8..12] == ToLE(h.payloadSize, 4)
      && bs[12] == h.priority && bs[TYPE_OFFSET] == h.kind && bs[14..22] == ToLE(h.sendTs, 8)
  {
  }

  /** Reading back a written header gives the header, for every header. */
  lemma DecodeEncode(h: Header)
    ensures Deserialize(Serialize(h)) == h
  {
    Widths();
    Layout(h);
    FromToLE(h.id, 8);
    FromToLE(h.payloadSize, 4);
    FromToLE(h.sendTs, 8);
  }

  /** Writing back a read header gives the bytes, for every 22 bytes, whatever their type byte. */
  lemma EncodeDecode(bs: seq<byte>)
    requires |bs| == HEADER
    ensures Serialize(Deserialize(bs)) == bs
  {
    ToFromLE(bs[0..8]);
    ToFromLE(bs[8..12]);
    ToFromLE(bs[14..22]);
    assert bs == bs[0..8] + bs[8..12] + [bs[12], bs[13]] + bs[14..22];
  }

  /** The server's decode, set the type, encode: one byte of the buffer changes. */
  lemma RetypeChangesOneByte(bs: seq<byte>, kind: byte)
    requires |bs| == HEADER
    ensures Serialize(Deserialize(bs).(kind := kind)) == bs[TYPE_OFFSET := kind]
  {
    EncodeDecode(bs);
    var h := Deserialize(bs);
    Layout(h);
    Layout(h.(kind := kind));
  }

  /** memcpy of a header into the caller's buffer. */
  method SerializeHeader(h: Header, buf: array<byte>)
    requires buf.Length >= HEADER
    modifies buf
    ensures buf[..] == Serialize(h) + old(buf[HEADER..])
  {
    var bs := Serialize(h);
    for i := 0 to HEADER
      invariant forall j :: 0 <= j < i ==> buf[j] == bs[j]
      invariant forall j :: i <= j < buf.Length ==> buf[j] == old(buf[j])
    {
      buf[i] := bs[i];
    }
  }

  // ---- frames ----

  /** The payload length announced in the header part of `bs`: its four bytes from offset 8, little-endian. */
  function PayloadSize(bs: seq<byte>): nat
    requires |bs| >= HEADER
  {
    bs[8] as int + 0x100 * (bs[9] as int) + 0x1_0000 * (bs[10] as int) + 0x100_0000 * (bs[11] as int)
  }

  /** It is the payload_size field of the decoded header. */
  lemma PayloadSizeDecoded(bs: seq<byte>)
    requires |bs| >= HEADER
    ensures PayloadSize(bs) == Deserialize(bs[..HEADER]).payloadSize
  {
    var p := bs[..HEADER][8..12];
    assert FromLE(p[3..]) == p[3];
    assert p[2..][1..] == p[3..] && p[1..][1..] == p[2..];
    assert FromLE(p[2..]) == p[2] as int + 256 * (p[3] as int);
    assert FromLE(p[1..]) == p[1] + 256 * FromLE(p[2..]);
  }

  /** A frame: a header followed by exactly the payload it announces. */
  predicate IsFrame(f: seq<byte>) {
    |f| >= HEADER && |f| == HEADER + PayloadSize(f)
  }

  /** What comes back for `f`: the same bytes but for the type. */
  function Reply(f: seq<byte>): seq<byte>
    requires |f| >= HEADER
  {
    f[TYPE_OFFSET := RESPONSE]
  }

  /** A reply is what decoding the header, retyping it and encoding it again gives, with the payload behind; parsed, it
      is the request's header and payload with only the type changed. */
  lemma ReplyKeepsAllButType(f: seq<byte>)
    requires |f| >= HEADER
    ensures Reply(f) == Serialize(Deserialize(f[..HEADER]).(kind := RESPONSE)) + f[HEADER..]
    ensures Deserialize(Reply(f)[..HEADER]) == Deserialize(f[..HEADER]).(kind := RESPONSE)
    ensures Reply(f)[HEADER..] == f[HEADER..] && Reply(f)[13] == 2
  {
    RetypeChangesOneByte(f[..HEADER], RESPONSE);
    var h := Deserialize(f[..HEADER]).(kind := RESPONSE);
    assert Reply(f)[..HEADER] == Serialize(h);
    DecodeEncode(h);
    assert f == f[..HEADER] + f[HEADER..];
  }

  /** The header and payload `do_request` builds form a frame. */
  lemma BuiltFrame(h: Header, payload: seq<byte>)
    requires h.payloadSize == |payload|
    ensures IsFrame(Serialize(h) + payload)
  {
    DecodeEncode(h);
    assert (Serialize(h) + payload)[..HEADER] == Serialize(h);
    PayloadSizeDecoded(Serialize(h) + payload);
  }

  // ---- reading a frame piece by piece ----

  /** How many bytes the current recv_exact still wants: first the header, then the announced payload. */
  function Wanted(got: seq<byte>): int {
    if |got| < HEADER then HEADER - |got| else HEADER + PayloadSize(got) - |got|
  }

  /** Header and payload are both in. */
  predicate Complete(got: seq<byte>) {
    |got| >= HEADER && Wanted(got) == 0
  }

  /** How many bytes the current send_exact still holds of a frame of `len` bytes. */
  function Unsent(sent: nat, len: nat): int {
    if sent < HEADER then HEADER - sent else len - sent
  }

  /** A reader of a prefix of a frame never asks for bytes beyond the frame. */
  lemma WantedOfPrefix(got: seq<byte>, f: seq<byte>)
    requires IsFrame(f) && got <= f
    ensures 0 <= Wanted(got) <= |f| - |got|
    ensures |got| < |f| ==> 0 < Wanted(got)
    ensures Complete(got) <==> got == f
    ensures |got| >= HEADER ==> PayloadSize(got) == PayloadSize(f)
  {
  }
}
