/**
 * The MOTENV1 console service (console_server_app.c): text written to the
 * terminal or error characteristic is sent in pieces of at most 20 bytes,
 * and the last piece is kept so that a read request can send it again.
 *
 * The loop counter of the chunking loop is a `uint8_t` that steps by 20, so
 * it wraps past 255. For texts of at most 240 bytes this does not matter;
 * for 241..252 bytes the loop goes round again and resends pieces it has
 * already sent; for 253..255 bytes it never stops. The model keeps the
 * wrap-around and requires a length of at most 252, the lengths for which
 * the loop ends.
 */
module ConsoleServer {
  import opened ByteCodec
  import opened BleLink

  const CONSOLE_MAX_CHAR_LEN := 20

  function Min(a: int, b: int): int { if a <= b then a else b }

  /**
   * The offset of the k-th piece: the `uint8_t` counter wraps modulo 256;
   * `wide` gives the offset an unbounded counter would have.
   */
  function Offset(k: nat, wide: bool): nat
  {
    if wide then 20 * k else (20 * k) % 256
  }

  /** The piece sent at `offset`: up to 20 bytes, never past the end of the text. */
  function Chunk(data: seq<uint8>, offset: nat): seq<uint8>
  {
    if offset < |data| then data[offset .. offset + Min(CONSOLE_MAX_CHAR_LEN, |data| - offset)] else []
  }

  /** The first k pieces. */
  function Chunks(data: seq<uint8>, k: nat, wide: bool): (cs: seq<seq<uint8>>)
    ensures |cs| == k
  {
    if k == 0 then [] else Chunks(data, k - 1, wide) + [Chunk(data, Offset(k - 1, wide))]
  }

  /**
   * How many times the loop body runs for a text of n bytes: the first k
   * whose offset is at least n. With the wrapping counter the offsets run
   * 0, 20, .., 240, 4, 24, .., 244, 8, .., 248, 12, .., 252.
   */
  function Steps(n: nat, wide: bool): nat
    requires wide || n <= 252
  {
    if wide || n <= 240 then (n + 19) / 20
    else if n <= 244 then 25
    else if n <= 248 then 38
    else 51
  }

  /** What the loop sends for `data`, as the source is written. */
  function SentChunks(data: seq<uint8>): seq<seq<uint8>>
    requires |data| <= 252
  {
    Chunks(data, Steps(|data|, false), false)
  }

  /** The pieces, joined again. */
  function Concat(cs: seq<seq<uint8>>): seq<uint8>
  {
    if cs == [] then [] else Concat(cs[..|cs| - 1]) + cs[|cs| - 1]
  }

  /** The characteristic updates that send the pieces on `ch`. */
  function ChunkUpdates(ch: Characteristic, cs: seq<seq<uint8>>): seq<Update>
  {
    if cs == [] then [] else ChunkUpdates(ch, cs[..|cs| - 1]) + [Update(ch, cs[|cs| - 1])]
  }

  /** memcpy of a piece to the front of the 20-byte buffer. */
  function Overlay(buf: seq<uint8>, c: seq<uint8>): (r: seq<uint8>)
    requires |c| <= |buf|
    ensures |r| == |buf|
  {
    c + buf[|c|..]
  }

  predicate FitInBuffer(cs: seq<seq<uint8>>)
  {
    cs == [] || (FitInBuffer(cs[..|cs| - 1]) && |cs[|cs| - 1]| <= CONSOLE_MAX_CHAR_LEN)
  }

  /** The buffer after each piece in turn has been copied to its front. */
  function BufferAfter(buf: seq<uint8>, cs: seq<seq<uint8>>): (r: seq<uint8>)
    requires |buf| == CONSOLE_MAX_CHAR_LEN && FitInBuffer(cs)
    ensures |r| == CONSOLE_MAX_CHAR_LEN
  {
    if cs == [] then buf else Overlay(BufferAfter(buf, cs[..|cs| - 1]), cs[|cs| - 1])
  }

  /** The kept length after the pieces: the last piece's, or the old one if nothing was sent. */
  function LastLen(len0: uint8, cs: seq<seq<uint8>>): uint8
    requires FitInBuffer(cs)
  {
    if cs == [] then len0 else |cs[|cs| - 1]|
  }

  /** Every piece has between 1 and 20 bytes. */
  lemma {:induction false} ChunksShape(data: seq<uint8>, k: nat, wide: bool)
    requires forall j :: 0 <= j < k ==> Offset(j, wide) < |data|
    ensures |Chunks(data, k, wide)| == k
    ensures forall i :: 0 <= i < k ==> Chunks(data, k, wide)[i] == Chunk(data, Offset(i, wide))
    ensures forall i :: 0 <= i < k ==> 1 <= |Chunks(data, k, wide)[i]| <= CONSOLE_MAX_CHAR_LEN
  {
    if k > 0 {
      ChunksShape(data, k - 1, wide);
      var prev, last := Chunks(data, k - 1, wide), Chunk(data, Offset(k - 1, wide));
      ChunkSize(data, Offset(k - 1, wide));
      assert Chunks(data, k, wide) == prev + [last];
      forall i | 0 <= i < k
        ensures Chunks(data, k, wide)[i] == Chunk(data, Offset(i, wide))
      {
        if i < k - 1 {
          assert (prev + [last])[i] == prev[i];
        }
      }
    }
  }

  /** A piece taken below the end of the text has between 1 and 20 bytes. */
  lemma ChunkSize(data: seq<uint8>, offset: nat)
    requires offset < |data|
    ensures 1 <= |Chunk(data, offset)| <= CONSOLE_MAX_CHAR_LEN
  {
  }

  /** Pieces of at most 20 bytes each fit the buffer one after another. */
  lemma {:induction false} FitFromSizes(cs: seq<seq<uint8>>)
    requires forall i :: 0 <= i < |cs| ==> |cs[i]| <= CONSOLE_MAX_CHAR_LEN
    ensures FitInBuffer(cs)
  {
    if cs != [] {
      FitFromSizes(cs[..|cs| - 1]);
    }
  }

  /**
   * The loop runs exactly Steps(n) times: every earlier offset is below n,
   * and the offset after the last piece is not.
   */
  lemma StepsExact(n: nat, wide: bool)
    requires wide || n <= 252
    ensures Offset(Steps(n, wide), wide) >= n
    ensures forall j :: 0 <= j < Steps(n, wide) ==> Offset(j, wide) < n
  {
    var s := Steps(n, wide);
    if wide || n <= 240 {
      assert 20 * s >= n && 20 * s <= n + 19;
      assert !wide ==> s <= 12;
    } else {
      assert Offset(25, false) == 244 && Offset(38, false) == 248 && Offset(51, false) == 252;
    }
    forall j | 0 <= j < s
      ensures Offset(j, wide) < n
    {
      if !wide {
        if j <= 12 {
          assert (20 * j) % 256 == 20 * j;
        } else if j <= 25 {
          assert (20 * j) % 256 == 20 * j - 256;
        } else if j <= 38 {
          assert (20 * j) % 256 == 20 * j - 512;
        } else {
          assert (20 * j) % 256 == 20 * j - 768;
        }
      }
    }
  }

  /** With the wrapping counter every offset is a multiple of 4 below 253. */
  lemma WrappedOffsetBound(k: nat)
    ensures Offset(k, false) % 4 == 0 && Offset(k, false) <= 252
  {
    var r := (20 * k) % 256;
    var q := (20 * k) / 256;
    assert 20 * k == 256 * q + r;
    assert r == 4 * (5 * k - 64 * q);
  }

  /** Adding 20 to the `uint8_t` counter moves it to the next piece's offset. */
  lemma OffsetStep(k: nat)
    ensures (Offset(k, false) + CONSOLE_MAX_CHAR_LEN) % 256 == Offset(k + 1, false)
  {
    var x := 20 * k;
    assert Offset(k, false) == x % 256;
    assert Offset(k + 1, false) == (x + 20) % 256;
    ModAddSmall(x, 20);
  }

  /** A turn of the sending loop runs only before the last step and moves the wrapping offset on by 20. */
  lemma LoopTurn(n: nat, k: nat)
    requires n <= 252 && k <= Steps(n, false) && Offset(k, false) < n
    ensures k < Steps(n, false)
    ensures (Offset(k, false) + CONSOLE_MAX_CHAR_LEN) % 256 == Offset(k + 1, false)
  {
    StepsExact(n, false);
    OffsetStep(k);
  }

  /** The sending loop stops exactly after Steps(n, false) turns. */
  lemma LoopExit(n: nat, k: nat)
    requires n <= 252 && k <= Steps(n, false) && Offset(k, false) >= n
    ensures k == Steps(n, false)
  {
    StepsExact(n, false);
  }

  /** Adding a small c before or after reducing modulo 256 gives the same residue. */
  lemma ModAddSmall(x: nat, c: nat)
    requires c < 256
    ensures (x % 256 + c) % 256 == (x + c) % 256
  {
    var q := x / 256;
    var r := x % 256;
    assert x == 256 * q + r;
    if r + c < 256 {
      assert x + c == 256 * q + (r + c);
      assert (x + c) % 256 == r + c;
      assert (r + c) % 256 == r + c;
    } else {
      assert x + c == 256 * (q + 1) + (r + c - 256);
      assert (x + c) % 256 == r + c - 256;
      assert (r + c) % 256 == r + c - 256;
    }
  }

  /** A text of 253 to 255 bytes keeps the loop going for ever: no offset reaches its length. */
  lemma LongOutputNeverEnds(n: nat, k: nat)
    requires 253 <= n <= 255
    ensures Offset(k, false) < n
  {
    WrappedOffsetBound(k);
  }

  /** Joining the first k pieces of an unwrapped loop gives the first 20k bytes of the text. */
  lemma {:induction false} WidePrefix(data: seq<uint8>, k: nat)
    requires k <= Steps(|data|, true)
    ensures Concat(Chunks(data, k, true)) == data[..Min(20 * k, |data|)]
  {
    if k > 0 {
      WidePrefix(data, k - 1);
      var cs := Chunks(data, k, true);
      assert cs[..|cs| - 1] == Chunks(data, k - 1, true);
      var m := 20 * (k - 1);
      assert m < |data| by {
        assert 20 * ((|data| + 19) / 20) <= |data| + 19;
      }
      var end := m + Min(CONSOLE_MAX_CHAR_LEN, |data| - m);
      assert end == Min(20 * k, |data|);
      assert Chunk(data, m) == data[m..end];
      assert data[..end] == data[..m] + data[m..end];
    }
  }

  /** With an unbounded counter the pieces join up to the whole text, whatever its length. */
  lemma WideOutputReassembles(data: seq<uint8>)
    ensures Concat(Chunks(data, Steps(|data|, true), true)) == data
    ensures forall i :: 0 <= i < Steps(|data|, true) ==> 1 <= |Chunks(data, Steps(|data|, true), true)[i]| <= CONSOLE_MAX_CHAR_LEN
  {
    WidePrefix(data, Steps(|data|, true));
    StepsExact(|data|, true);
    ChunksShape(data, Steps(|data|, true), true);
  }

  /** Up to 13 pieces the wrapping counter and an unbounded one agree. */
  lemma {:induction false} NoWrapBelow13(data: seq<uint8>, k: nat)
    requires k <= 13
    ensures Chunks(data, k, false) == Chunks(data, k, true)
  {
    if k > 0 {
      NoWrapBelow13(data, k - 1);
      var j := k - 1;
      assert 20 * j < 256;
      assert Offset(j, false) == Offset(j, true);
    }
  }

  /**
   * A text of at most 240 bytes is sent as ceil(n / 20) pieces of 1 to 20
   * bytes, in order, which join up to exactly the text.
   */
  lemma ShortOutputReassembles(data: seq<uint8>)
    requires |data| <= 240
    ensures |SentChunks(data)| == (|data| + 19) / 20
    ensures Concat(SentChunks(data)) == data
    ensures forall i :: 0 <= i < |SentChunks(data)| ==> 1 <= |SentChunks(data)[i]| <= CONSOLE_MAX_CHAR_LEN
  {
    NoWrapBelow13(data, Steps(|data|, false));
    WideOutputReassembles(data);
    StepsExact(|data|, false);
    ChunksShape(data, Steps(|data|, false), false);
  }

  /**
   * A text of 241 to 252 bytes wraps the counter: the 14th piece sent is
   * bytes 4..24, a repeat of part of the first two pieces, so the pieces
   * join up to more than the text.
   */
  lemma WrapResends(data: seq<uint8>)
    requires 241 <= |data| <= 252
    ensures |SentChunks(data)| > 13
    ensures SentChunks(data)[13] == data[4..24]
    ensures |Concat(SentChunks(data))| > |data|
  {
    var n := |data|;
    var cs := SentChunks(data);
    assert |cs| >= 25;
    assert cs[13] == Chunk(data, 4) by {
      ChunksPrefix(data, Steps(n, false), 14, false);
      assert Offset(13, false) == 4;
    }
    assert Concat(cs[..13]) == data by {
      ChunksPrefix(data, Steps(n, false), 13, false);
      FirstLapCoversText(data);
    }
    assert cs[..14][..13] == cs[..13];
    ConcatLength(cs[..14], 13);
    PrefixOfConcat(cs, 14);
  }

  /** The first 13 pieces, up to offset 240, already cover a text of 241 to 252 bytes. */
  lemma FirstLapCoversText(data: seq<uint8>)
    requires 241 <= |data| <= 252
    ensures Concat(Chunks(data, 13, false)) == data
  {
    NoWrapBelow13(data, 13);
    WidePrefix(data, 13);
    assert data[..Min(20 * 13, |data|)] == data;
  }

  /** A prefix of the pieces is the pieces of a shorter loop. */
  lemma {:induction false} ChunksPrefix(data: seq<uint8>, k: nat, m: nat, wide: bool)
    requires m <= k
    ensures Chunks(data, k, wide)[..m] == Chunks(data, m, wide)
  {
    if m < k {
      ChunksPrefix(data, k - 1, m, wide);
      assert Chunks(data, k, wide)[..m] == Chunks(data, k - 1, wide)[..m];
    }
  }

  /** Joining a prefix of the pieces gives no more bytes than joining them all. */
  lemma {:induction false} PrefixOfConcat(cs: seq<seq<uint8>>, m: nat)
    requires m <= |cs|
    ensures |Concat(cs[..m])| <= |Concat(cs)|
  {
    if m < |cs| {
      assert cs[..|cs| - 1][..m] == cs[..m];
      PrefixOfConcat(cs[..|cs| - 1], m);
    } else {
      assert cs[..m] == cs;
    }
  }

  /** Joining m + 1 pieces adds the last one's length. */
  lemma ConcatLength(cs: seq<seq<uint8>>, m: nat)
    requires |cs| == m + 1
    ensures |Concat(cs)| == |Concat(cs[..m])| + |cs[m]|
  {
  }

  /** Sending one more piece adds one update. */
  lemma ChunkUpdatesAppend(ch: Characteristic, cs: seq<seq<uint8>>, c: seq<uint8>)
    ensures ChunkUpdates(ch, cs + [c]) == ChunkUpdates(ch, cs) + [Update(ch, c)]
  {
    assert (cs + [c])[..|cs|] == cs;
  }

  /** Copying one more piece overlays it on the buffer. */
  lemma BufferAfterAppend(buf: seq<uint8>, cs: seq<seq<uint8>>, c: seq<uint8>)
    requires |buf| == CONSOLE_MAX_CHAR_LEN && FitInBuffer(cs) && |c| <= CONSOLE_MAX_CHAR_LEN
    ensures FitInBuffer(cs + [c])
    ensures BufferAfter(buf, cs + [c]) == Overlay(BufferAfter(buf, cs), c)
    ensures LastLen(0, cs + [c]) == |c|
  {
    assert (cs + [c])[..|cs|] == cs;
  }

  /** One more pass of the loop extends the pieces sent and kept by the piece at the next offset. */
  lemma NextPiece(ch: Characteristic, data: seq<uint8>, k: nat, c: seq<uint8>,
                  buf0: seq<uint8>, bufK: seq<uint8>, sent0: seq<Update>, sentK: seq<Update>)
    requires |buf0| == CONSOLE_MAX_CHAR_LEN && FitInBuffer(Chunks(data, k, false))
    requires c == Chunk(data, Offset(k, false)) && |c| <= CONSOLE_MAX_CHAR_LEN
    requires bufK == BufferAfter(buf0, Chunks(data, k, false))
    requires sentK == sent0 + ChunkUpdates(ch, Chunks(data, k, false))
    ensures FitInBuffer(Chunks(data, k + 1, false))
    ensures Overlay(bufK, c) == BufferAfter(buf0, Chunks(data, k + 1, false))
    ensures sentK + [Update(ch, c)] == sent0 + ChunkUpdates(ch, Chunks(data, k + 1, false))
    ensures LastLen(0, Chunks(data, k + 1, false)) == |c|
  {
    BufferAfterAppend(buf0, Chunks(data, k, false), c);
    ChunkUpdatesAppend(ch, Chunks(data, k, false), c);
  }

  /** CONSOLE_Server_App_Context (ConsoleIsInitalized, which no function reads or writes, is left out). */
  class ConsoleContext {
    var termNotificationStatus: uint8
    var stderrNotificationStatus: uint8
    var lastTermBuffer: array<uint8>
    var lastTermLen: uint8

    predicate Valid()
      reads this
    {
      lastTermBuffer.Length == CONSOLE_MAX_CHAR_LEN && lastTermLen <= CONSOLE_MAX_CHAR_LEN
    }

    /** The zero-initialised static context. */
    constructor ()
      ensures Valid() && fresh(lastTermBuffer)
      ensures termNotificationStatus == 0 && stderrNotificationStatus == 0
      ensures lastTermBuffer[..] == seq(CONSOLE_MAX_CHAR_LEN, _ => 0) && lastTermLen == 0
    {
      termNotificationStatus, stderrNotificationStatus := 0, 0;
      lastTermBuffer := new uint8[CONSOLE_MAX_CHAR_LEN](_ => 0);
      lastTermLen := 0;
    }

    /** CONSOLE_Context_Init: both notifications off; the kept piece stays. */
    method ContextInit()
      modifies this
      ensures termNotificationStatus == 0 && stderrNotificationStatus == 0
      ensures lastTermBuffer == old(lastTermBuffer) && lastTermLen == old(lastTermLen)
    {
      SetTermNotificationStatus(0);
      SetStderrNotificationStatus(0);
    }

    /** CONSOLE_Set_Term_Notification_Status. */
    method SetTermNotificationStatus(status: uint8)
      modifies this
      ensures termNotificationStatus == status && stderrNotificationStatus == old(stderrNotificationStatus)
      ensures lastTermBuffer == old(lastTermBuffer) && lastTermLen == old(lastTermLen)
    {
      termNotificationStatus := status;
    }

    /** CONSOLE_Set_Stderr_Notification_Status. */
    method SetStderrNotificationStatus(status: uint8)
      modifies this
      ensures stderrNotificationStatus == status && termNotificationStatus == old(termNotificationStatus)
      ensures lastTermBuffer == old(lastTermBuffer) && lastTermLen == old(lastTermLen)
    {
      stderrNotificationStatus := status;
    }

    /** The memcpy into LastTermBuffer. */
    method KeepChunk(c: seq<uint8>)
      requires Valid() && |c| <= CONSOLE_MAX_CHAR_LEN
      modifies lastTermBuffer
      ensures lastTermBuffer[..] == Overlay(old(lastTermBuffer[..]), c)
    {
      var i := 0;
      while i < |c|
        invariant 0 <= i <= |c|
        invariant forall j :: 0 <= j < i ==> lastTermBuffer[j] == c[j]
        invariant forall j :: i <= j < lastTermBuffer.Length ==> lastTermBuffer[j] == old(lastTermBuffer[j])
      {
        lastTermBuffer[i] := c[i];
        i := i + 1;
      }
      assert lastTermBuffer[..] == Overlay(old(lastTermBuffer[..]), c);
    }

    /** One pass of the chunking loop: the piece at `offset` is kept and sent. */
    method SendPiece(ch: Characteristic, data: seq<uint8>, offset: uint8, radio: Radio) returns (c: seq<uint8>)
      requires Valid() && offset < |data| <= 255
      modifies this, lastTermBuffer, radio
      ensures c == Chunk(data, offset) && 1 <= |c| <= CONSOLE_MAX_CHAR_LEN
      ensures Valid() && lastTermBuffer == old(lastTermBuffer)
      ensures termNotificationStatus == old(termNotificationStatus)
      ensures stderrNotificationStatus == old(stderrNotificationStatus)
      ensures lastTermBuffer[..] == Overlay(old(lastTermBuffer[..]), c) && lastTermLen == |c|
      ensures radio.sent == old(radio.sent) + [Update(ch, c)]
    {
      var length: uint8 := |data|;
      var dataToSend: uint8 := length - offset;
      dataToSend := if dataToSend > CONSOLE_MAX_CHAR_LEN then CONSOLE_MAX_CHAR_LEN else dataToSend;
      c := data[offset .. offset + dataToSend];
      KeepChunk(c);
      lastTermLen := dataToSend;
      radio.UpdateChar(ch, c);
    }

    /** One turn of the sending loop: piece k goes out and extends the log and the buffer. */
    method SendStep(ch: Characteristic, data: seq<uint8>, ghost k: nat, offset: uint8, radio: Radio,
                    ghost buf0: seq<uint8>, ghost len0: uint8, ghost sent0: seq<Update>)
      requires Valid() && offset < |data| <= 252 && offset == Offset(k, false)
      requires |buf0| == CONSOLE_MAX_CHAR_LEN && FitInBuffer(Chunks(data, k, false))
      requires radio.sent == sent0 + ChunkUpdates(ch, Chunks(data, k, false))
      requires lastTermBuffer[..] == BufferAfter(buf0, Chunks(data, k, false))
      modifies this, lastTermBuffer, radio
      ensures Valid() && lastTermBuffer == old(lastTermBuffer)
      ensures termNotificationStatus == old(termNotificationStatus)
      ensures stderrNotificationStatus == old(stderrNotificationStatus)
      ensures FitInBuffer(Chunks(data, k + 1, false))
      ensures radio.sent == sent0 + ChunkUpdates(ch, Chunks(data, k + 1, false))
      ensures lastTermBuffer[..] == BufferAfter(buf0, Chunks(data, k + 1, false))
      ensures lastTermLen == LastLen(len0, Chunks(data, k + 1, false))
    {
      ghost var bufK, sentK := lastTermBuffer[..], radio.sent;
      var c := SendPiece(ch, data, offset, radio);
      NextPiece(ch, data, k, c, buf0, bufK, sent0, sentK);
    }

    /**
     * The chunking loop of CONSOLE_Term_Update and CONSOLE_Stderr_Update:
     * each piece is kept as the last piece and sent on `ch`.
     */
    method SendChunks(ch: Characteristic, data: seq<uint8>, radio: Radio)
      requires Valid() && |data| <= 252
      modifies this, lastTermBuffer, radio
      ensures Valid() && lastTermBuffer == old(lastTermBuffer)
      ensures termNotificationStatus == old(termNotificationStatus)
      ensures stderrNotificationStatus == old(stderrNotificationStatus)
      ensures FitInBuffer(SentChunks(data))
      ensures radio.sent == old(radio.sent) + ChunkUpdates(ch, SentChunks(data))
      ensures lastTermBuffer[..] == BufferAfter(old(lastTermBuffer[..]), SentChunks(data))
      ensures lastTermLen == LastLen(old(lastTermLen), SentChunks(data))
    {
      var length: uint8 := |data|;
      ghost var steps := Steps(|data|, false);
      ghost var buf0, len0, sent0 := lastTermBuffer[..], lastTermLen, radio.sent;
      var offset: uint8 := 0;
      ghost var k := 0;
      while offset < length
        invariant 0 <= k <= steps && offset == Offset(k, false)
        invariant Valid() && lastTermBuffer == old(lastTermBuffer)
        invariant termNotificationStatus == old(termNotificationStatus)
        invariant stderrNotificationStatus == old(stderrNotificationStatus)
        invariant FitInBuffer(Chunks(data, k, false))
        invariant radio.sent == sent0 + ChunkUpdates(ch, Chunks(data, k, false))
        invariant lastTermBuffer[..] == BufferAfter(buf0, Chunks(data, k, false))
        invariant lastTermLen == LastLen(len0, Chunks(data, k, false))
        decreases steps - k
      {
        LoopTurn(|data|, k);
        SendStep(ch, data, k, offset, radio, buf0, len0, sent0);
        offset := (offset + CONSOLE_MAX_CHAR_LEN) % 256;
        k := k + 1;
      }
      LoopExit(|data|, k);
    }

    /**
     * CONSOLE_Term_Update: with terminal notifications on, the text goes out
     * in pieces on the terminal characteristic and the last piece is kept;
     * with them off nothing happens.
     */
    method TermUpdate(data: seq<uint8>, radio: Radio)
      requires Valid() && |data| <= 252
      modifies this, lastTermBuffer, radio
      ensures Valid() && lastTermBuffer == old(lastTermBuffer)
      ensures termNotificationStatus == old(termNotificationStatus)
      ensures stderrNotificationStatus == old(stderrNotificationStatus)
      ensures termNotificationStatus == 0 ==>
        radio.sent == old(radio.sent) && lastTermBuffer[..] == old(lastTermBuffer[..]) && lastTermLen == old(lastTermLen)
      ensures termNotificationStatus != 0 ==>
        && FitInBuffer(SentChunks(data))
        && radio.sent == old(radio.sent) + ChunkUpdates(CONSOLE_TERM_CHAR, SentChunks(data))
        && lastTermBuffer[..] == BufferAfter(old(lastTermBuffer[..]), SentChunks(data))
        && lastTermLen == LastLen(old(lastTermLen), SentChunks(data))
      ensures termNotificationStatus != 0 && |data| > 0 ==>
        1 <= lastTermLen <= CONSOLE_MAX_CHAR_LEN && lastTermBuffer[..lastTermLen] == SentChunks(data)[|SentChunks(data)| - 1]
    {
      if termNotificationStatus != 0 {
        SendChunks(CONSOLE_TERM_CHAR, data, radio);
        LastChunkKept(old(lastTermBuffer[..]), old(lastTermLen), data);
      }
    }

    /** CONSOLE_Stderr_Update: as CONSOLE_Term_Update, under the error flag and on the error characteristic, and it overwrites the same kept piece. */
    method StderrUpdate(data: seq<uint8>, radio: Radio)
      requires Valid() && |data| <= 252
      modifies this, lastTermBuffer, radio
      ensures Valid() && lastTermBuffer == old(lastTermBuffer)
      ensures termNotificationStatus == old(termNotificationStatus)
      ensures stderrNotificationStatus == old(stderrNotificationStatus)
      ensures stderrNotificationStatus == 0 ==>
        radio.sent == old(radio.sent) && lastTermBuffer[..] == old(lastTermBuffer[..]) && lastTermLen == old(lastTermLen)
      ensures stderrNotificationStatus != 0 ==>
        && FitInBuffer(SentChunks(data))
        && radio.sent == old(radio.sent) + ChunkUpdates(CONSOLE_STDERR_CHAR, SentChunks(data))
        && lastTermBuffer[..] == BufferAfter(old(lastTermBuffer[..]), SentChunks(data))
        && lastTermLen == LastLen(old(lastTermLen), SentChunks(data))
      ensures stderrNotificationStatus != 0 && |data| > 0 ==>
        1 <= lastTermLen <= CONSOLE_MAX_CHAR_LEN && lastTermBuffer[..lastTermLen] == SentChunks(data)[|SentChunks(data)| - 1]
    {
      if stderrNotificationStatus != 0 {
        SendChunks(CONSOLE_STDERR_CHAR, data, radio);
        LastChunkKept(old(lastTermBuffer[..]), old(lastTermLen), data);
      }
    }

    /** CONSOLE_Term_Update_AfterRead: resends the kept piece if terminal notifications are on. */
    method TermAfterRead(radio: Radio)
      requires Valid()
      modifies radio
      ensures radio.sent == old(radio.sent)
        + (if termNotificationStatus != 0 then [Update(CONSOLE_TERM_CHAR, lastTermBuffer[..lastTermLen])] else [])
    {
      if termNotificationStatus != 0 {
        radio.UpdateChar(CONSOLE_TERM_CHAR, lastTermBuffer[..lastTermLen]);
      }
    }

    /** CONSOLE_Stderr_Update_AfterRead: resends the kept piece if error notifications are on, on the terminal characteristic. */
    method StderrAfterRead(radio: Radio)
      requires Valid()
      modifies radio
      ensures radio.sent == old(radio.sent)
        + (if stderrNotificationStatus != 0 then [Update(CONSOLE_TERM_CHAR, lastTermBuffer[..lastTermLen])] else [])
    {
      if stderrNotificationStatus != 0 {
        radio.UpdateChar(CONSOLE_TERM_CHAR, lastTermBuffer[..lastTermLen]);
      }
    }
  }

  /**
   * After a non-empty text the kept piece is the last piece sent, and it
   * has between 1 and 20 bytes.
   */
  lemma LastChunkKept(buf: seq<uint8>, len0: uint8, data: seq<uint8>)
    requires |buf| == CONSOLE_MAX_CHAR_LEN && |data| <= 252
    ensures FitInBuffer(SentChunks(data))
    ensures |data| > 0 ==>
      var cs := SentChunks(data);
      var len := LastLen(len0, cs);
      && 1 <= len <= CONSOLE_MAX_CHAR_LEN
      && BufferAfter(buf, cs)[..len] == cs[|cs| - 1]
  {
    StepsExact(|data|, false);
    ChunksShape(data, Steps(|data|, false), false);
    FitFromSizes(SentChunks(data));
    if |data| > 0 {
      assert Steps(|data|, false) >= 1;
    }
  }
}
