/** Audio byte queues: a deque of chunks with an offset, the capped frame buffer above it,
    and the looped noise source. */
module AudioBuffers {
  import opened Basics

  function Flatten(chunks: seq<seq<Byte>>): seq<Byte> {
    if chunks == [] then [] else chunks[0] + Flatten(chunks[1..])
  }

  lemma {:induction false} FlattenAppend(chunks: seq<seq<Byte>>, chunk: seq<Byte>)
    ensures Flatten(chunks + [chunk]) == Flatten(chunks) + chunk
  {
    if chunks == [] {
      assert [] + [chunk] == [chunk];
    } else {
      assert (chunks + [chunk])[1..] == chunks[1..] + [chunk];
      FlattenAppend(chunks[1..], chunk);
    }
  }

  lemma {:induction false} SplitsAt(whole: seq<Byte>, front: seq<Byte>, back: seq<Byte>)
    requires front + back == whole
    ensures whole[..|front|] == front && whole[|front|..] == back
  {
  }

  ghost predicate NoneEmpty(chunks: seq<seq<Byte>>) {
    forall i :: 0 <= i < |chunks| ==> chunks[i] != []
  }

  ghost predicate WellPlaced(chunks: seq<seq<Byte>>, offset: nat) {
    && NoneEmpty(chunks)
    && (if chunks == [] then offset == 0 else offset < |chunks[0]|)
    && offset <= |Flatten(chunks)|
  }

  // Midway through a read: `done` bytes of the whole are in the parts, the rest still in the chunks.
  ghost predicate Reading(parts: seq<seq<Byte>>, chunks: seq<seq<Byte>>, offset: nat, whole: seq<Byte>, done: nat) {
    && WellPlaced(chunks, offset)
    && Flatten(parts) + Flatten(chunks)[offset..] == whole && |Flatten(parts)| == done
  }

  // While bytes are still wanted there is a chunk to take them from.
  lemma {:induction false} MoreToTake(
      parts: seq<seq<Byte>>, chunks: seq<seq<Byte>>, offset: nat, whole: seq<Byte>, done: nat)
    requires Reading(parts, chunks, offset, whole, done) && done < |whole|
    ensures chunks != [] && offset < |chunks[0]|
  {
  }

  // Moving what is left of the first chunk, or a part of it, to the parts read keeps the bytes in order.
  lemma {:induction false} TakeChunk(
      parts: seq<seq<Byte>>, chunks: seq<seq<Byte>>, offset: nat, whole: seq<Byte>, done: nat)
    requires Reading(parts, chunks, offset, whole, done) && chunks != []
    ensures Reading(parts + [chunks[0][offset..]], chunks[1..], 0, whole, done + |chunks[0]| - offset)
  {
    FlattenAppend(parts, chunks[0][offset..]);
    SplitFirst(chunks[0], Flatten(chunks[1..]), offset, |chunks[0]|);
    AppendAssociates(Flatten(parts), chunks[0][offset..], Flatten(chunks[1..]));
  }

  lemma {:induction false} TakePart(
      parts: seq<seq<Byte>>, chunks: seq<seq<Byte>>, offset: nat, whole: seq<Byte>, done: nat, k: nat)
    requires Reading(parts, chunks, offset, whole, done) && chunks != [] && offset + k < |chunks[0]|
    ensures Reading(parts + [chunks[0][offset..offset + k]], chunks, offset + k, whole, done + k)
  {
    FlattenAppend(parts, chunks[0][offset..offset + k]);
    SplitFirst(chunks[0], Flatten(chunks[1..]), offset, offset + k);
    AppendAssociates(Flatten(parts), chunks[0][offset..offset + k], Flatten(chunks)[offset + k..]);
  }

  lemma {:induction false} SplitFirst(chunk: seq<Byte>, rest: seq<Byte>, from: nat, to: nat)
    requires from <= to <= |chunk|
    ensures (chunk + rest)[from..] == chunk[from..to] + (chunk + rest)[to..]
  {
  }

  // ---------- the chunk queue ----------

  class AudioChunkBuffer {
    var chunks: seq<seq<Byte>>
    var offset: nat
    var total: nat

    // What the cost bound counts: turns of the read loop, non-empty writes, successful reads.
    ghost var turns: nat
    ghost var writes: nat
    ghost var taken: nat

    ghost function Contents(): seq<Byte>
      reads this
      requires offset <= |Flatten(chunks)|
    {
      Flatten(chunks)[offset..]
    }

    ghost predicate Valid()
      reads this
    {
      && WellPlaced(chunks, offset)
      && total == |Contents()|
      && turns + |chunks| <= writes + taken
    }

    constructor ()
      ensures Valid() && Contents() == [] && turns == writes == taken == 0
    {
      chunks, offset, total := [], 0, 0;
      turns, writes, taken := 0, 0, 0;
    }

    method Write(data: seq<Byte>)
      requires Valid()
      modifies this
      ensures Valid() && Contents() == old(Contents()) + data
      ensures turns == old(turns) && taken == old(taken) && writes == old(writes) + if data == [] then 0 else 1
    {
      if data != [] {
        FlattenAppend(chunks, data);
        chunks := chunks + [data];
        total := total + |data|;
        writes := writes + 1;
      }
    }

    method Read(n: nat) returns (result: Option<seq<Byte>>)
      requires Valid() && n > 0
      modifies this
      ensures Valid() && writes == old(writes)
      ensures |old(Contents())| < n ==>
                result == None && Contents() == old(Contents()) && turns == old(turns) && taken == old(taken)
      ensures |old(Contents())| >= n ==>
                && result == Some(old(Contents())[..n]) && Contents() == old(Contents())[n..]
                && taken == old(taken) + 1
    {
      if total < n {
        return None;
      }
      var parts: seq<seq<Byte>> := [];
      var remaining := n;
      while remaining > 0
        invariant 0 <= remaining <= n && total == old(total) && writes == old(writes) && taken == old(taken)
        invariant Reading(parts, chunks, offset, old(Contents()), n - remaining)
        invariant turns + |chunks| <= writes + taken + if remaining > 0 then 0 else 1
        decreases remaining
      {
        MoreToTake(parts, chunks, offset, old(Contents()), n - remaining);
        var chunk := chunks[0];
        var avail := |chunk| - offset;
        if avail <= remaining {
          TakeChunk(parts, chunks, offset, old(Contents()), n - remaining);
          parts := parts + [chunk[offset..]];
          chunks := chunks[1..];
          offset := 0;
          remaining := remaining - avail;
        } else {
          TakePart(parts, chunks, offset, old(Contents()), n - remaining, remaining);
          parts := parts + [chunk[offset..offset + remaining]];
          offset := offset + remaining;
          remaining := 0;
        }
        turns := turns + 1;
      }
      SplitsAt(old(Contents()), Flatten(parts), Contents());
      total := total - n;
      taken := taken + 1;
      return Some(Flatten(parts));
    }

    method Clear()
      requires Valid()
      modifies this
      ensures Valid() && Contents() == [] && turns == old(turns) && writes == old(writes) && taken == old(taken)
    {
      chunks, offset, total := [], 0, 0;
    }
  }

  // ---------- the capped frame buffer ----------

  // The contents after a write under a cap: the oldest bytes go, an even number of them. A discard that is
  // larger than the contents reads nothing, so it drops nothing.
  function AfterWrite(contents: seq<Byte>, data: seq<Byte>, maxBytes: Option<nat>): seq<Byte> {
    var all := contents + data;
    if data == [] || maxBytes.None? || |all| <= maxBytes.value then all
    else
      var overflow := |all| - maxBytes.value;
      if Aligned(overflow) <= |all| then all[Aligned(overflow)..] else all
  }

  // Up to a whole number of two-byte samples.
  function Aligned(bytes: nat): (aligned: nat)
    ensures bytes <= aligned <= bytes + 1 && aligned % 2 == 0
  {
    bytes + bytes % 2
  }

  class AudioBuffer {
    const inner: AudioChunkBuffer
    const frameBytes: nat
    const maxBytes: Option<nat>
    var totalSamplesWritten: nat

    ghost predicate Valid()
      reads this, inner
    {
      inner.Valid()
    }

    ghost function Contents(): seq<Byte>
      reads this, inner
      requires Valid()
    {
      inner.Contents()
    }

    constructor (sampleRate: nat, frameDurationMs: nat, maxDurationMs: Option<nat>)
      ensures Valid() && fresh(inner) && Contents() == [] && totalSamplesWritten == 0
      ensures frameBytes == sampleRate * frameDurationMs / 1000 * 2
      ensures maxBytes == if maxDurationMs.None? then None else Some(sampleRate * maxDurationMs.value / 1000 * 2)
    {
      inner := new AudioChunkBuffer();
      frameBytes := sampleRate * frameDurationMs / 1000 * 2;
      maxBytes := if maxDurationMs.None? then None else Some(sampleRate * maxDurationMs.value / 1000 * 2);
      totalSamplesWritten := 0;
    }

    method Write(data: seq<Byte>)
      requires Valid()
      modifies this, inner
      ensures Valid() && Contents() == AfterWrite(old(Contents()), data, maxBytes)
      ensures totalSamplesWritten == old(totalSamplesWritten) + |data| / 2
    {
      if data == [] {
        return;
      }
      totalSamplesWritten := totalSamplesWritten + |data| / 2;
      inner.Write(data);
      if maxBytes.Some? {
        var overflow := inner.total - maxBytes.value;
        if overflow > 0 {
          var _ := inner.Read(Aligned(overflow));
        }
      }
    }

    method ReadFrames() returns (frames: seq<seq<Byte>>)
      requires Valid() && frameBytes > 0
      modifies inner
      ensures Valid()
      ensures Flatten(frames) + Contents() == old(Contents()) && |Contents()| < frameBytes
      ensures Contents() == Leftover(old(Contents()), frameBytes)
      ensures forall i :: 0 <= i < |frames| ==> |frames[i]| == frameBytes
    {
      frames := [];
      ghost var before := Contents();
      while inner.total >= frameBytes
        invariant Valid()
        invariant Flatten(frames) + Contents() == before
        invariant Leftover(Contents(), frameBytes) == Leftover(before, frameBytes)
        invariant forall i :: 0 <= i < |frames| ==> |frames[i]| == frameBytes
        decreases inner.total
      {
        ghost var held := Contents();
        var frame := inner.Read(frameBytes);
        if frame.Some? {
          FramesGrow(frames, frame.value, held, Contents(), before);
          frames := frames + [frame.value];
        }
      }
    }

    method ReadAll() returns (result: Option<seq<Byte>>)
      requires Valid()
      modifies inner
      ensures Valid() && Contents() == []
      ensures result == if old(Contents()) == [] then None else Some(old(Contents()))
    {
      if inner.total == 0 {
        return None;
      }
      result := inner.Read(inner.total);
      assert old(Contents())[..|old(Contents())|] == old(Contents());
    }

    method Clear()
      requires Valid()
      modifies this, inner
      ensures Valid() && Contents() == [] && totalSamplesWritten == 0
    {
      inner.Clear();
      totalSamplesWritten := 0;
    }
  }

  lemma {:induction false} FramesGrow(
      frames: seq<seq<Byte>>, frame: seq<Byte>, held: seq<Byte>, rest: seq<Byte>, before: seq<Byte>)
    requires Flatten(frames) + held == before && |frame| <= |held|
    requires frame == held[..|frame|] && rest == held[|frame|..]
    ensures Flatten(frames + [frame]) + rest == before
  {
    FlattenAppend(frames, frame);
    assert held == frame + rest;
    assert (Flatten(frames) + frame) + rest == Flatten(frames) + (frame + rest);
  }

  // A write leaves the buffer within its cap exactly when the cap holds at least one sample or the
  // bytes are whole samples: a cap of zero keeps an odd buffer whole.
  lemma {:induction false} CapIsKept(contents: seq<Byte>, data: seq<Byte>, maxBytes: nat)
    requires maxBytes % 2 == 0 && data != []
    ensures |AfterWrite(contents, data, Some(maxBytes))| <= maxBytes <==> maxBytes > 0 || |contents + data| % 2 == 0
  {
  }

  // The buffer's contents through a run of writes, whole-buffer reads and clears; `dropped` counts discarded bytes.
  datatype Use = Write(data: seq<Byte>) | TakeFrames(frameBytes: nat) | TakeAll | Clear

  datatype Buffered = Buffered(contents: seq<Byte>, written: seq<Byte>, taken: nat, dropped: nat)

  function Leftover(contents: seq<Byte>, frameBytes: nat): seq<Byte> {
    if frameBytes == 0 || |contents| < frameBytes then contents else Leftover(contents[frameBytes..], frameBytes)
  }

  // `written` is everything written since the last clear.
  function After(b: Buffered, use: Use, maxBytes: nat): Buffered {
    match use
    case Write(data) =>
      var contents := AfterWrite(b.contents, data, Some(maxBytes));
      Buffered(contents, b.written + data, b.taken, b.dropped + (|b.contents| + |data| - |contents|))
    case TakeFrames(frameBytes) =>
      var contents := Leftover(b.contents, frameBytes);
      LeftoverIsSuffix(b.contents, frameBytes);
      b.(contents := contents, taken := b.taken + (|b.contents| - |contents|))
    case TakeAll => b.(contents := [], taken := b.taken + |b.contents|)
    case Clear => Buffered([], [], 0, 0)
  }

  lemma {:induction false} LeftoverIsSuffix(contents: seq<Byte>, frameBytes: nat)
    ensures |Leftover(contents, frameBytes)| <= |contents|
    ensures Leftover(contents, frameBytes) == contents[|contents| - |Leftover(contents, frameBytes)|..]
    ensures frameBytes > 0 ==> |Leftover(contents, frameBytes)| < frameBytes
    decreases |contents|
  {
    if !(frameBytes == 0 || |contents| < frameBytes) {
      LeftoverIsSuffix(contents[frameBytes..], frameBytes);
    }
  }

  function AfterAll(uses: seq<Use>, maxBytes: nat): Buffered {
    if uses == [] then Buffered([], [], 0, 0)
    else After(AfterAll(uses[..|uses| - 1], maxBytes), uses[|uses| - 1], maxBytes)
  }

  ghost predicate NewestSuffix(b: Buffered, maxBytes: nat) {
    && |b.contents| <= maxBytes && |b.contents| <= |b.written|
    && b.contents == b.written[|b.written| - |b.contents|..]
    && b.taken + b.dropped + |b.contents| == |b.written|
    && b.dropped % 2 == 0
  }

  // In every run the buffer holds a newest suffix of what was written, within its cap; what it did not
  // hand out it dropped, an even number of bytes in all.
  lemma {:induction false} NewestSuffixKept(uses: seq<Use>, maxBytes: nat)
    requires maxBytes % 2 == 0 && maxBytes > 0
    ensures NewestSuffix(AfterAll(uses, maxBytes), maxBytes)
  {
    if uses != [] {
      NewestSuffixKept(uses[..|uses| - 1], maxBytes);
      UseKeepsSuffix(AfterAll(uses[..|uses| - 1], maxBytes), uses[|uses| - 1], maxBytes);
    }
  }

  lemma {:induction false} UseKeepsSuffix(b: Buffered, use: Use, maxBytes: nat)
    requires maxBytes % 2 == 0 && maxBytes > 0 && NewestSuffix(b, maxBytes)
    ensures NewestSuffix(After(b, use, maxBytes), maxBytes)
  {
    match use {
      case Write(data) => WriteKeepsSuffix(b, data, maxBytes);
      case TakeFrames(frameBytes) => FramesKeepSuffix(b, frameBytes, maxBytes);
      case _ =>
    }
  }

  lemma {:induction false} FramesKeepSuffix(b: Buffered, frameBytes: nat, maxBytes: nat)
    requires NewestSuffix(b, maxBytes)
    ensures NewestSuffix(After(b, TakeFrames(frameBytes), maxBytes), maxBytes)
  {
    LeftoverIsSuffix(b.contents, frameBytes);
    TakingKeepsSuffix(b, Leftover(b.contents, frameBytes), maxBytes);
  }

  lemma {:induction false} TakingKeepsSuffix(b: Buffered, left: seq<Byte>, maxBytes: nat)
    requires NewestSuffix(b, maxBytes) && |left| <= |b.contents| && left == b.contents[|b.contents| - |left|..]
    ensures NewestSuffix(b.(contents := left, taken := b.taken + (|b.contents| - |left|)), maxBytes)
  {
  }

  lemma {:induction false} WriteKeepsSuffix(b: Buffered, data: seq<Byte>, maxBytes: nat)
    requires maxBytes % 2 == 0 && maxBytes > 0 && NewestSuffix(b, maxBytes)
    ensures NewestSuffix(After(b, Write(data), maxBytes), maxBytes)
  {
    CapStep(b.contents, data, maxBytes);
    SuffixAfter(b, data, AfterWrite(b.contents, data, Some(maxBytes)), maxBytes);
  }

  lemma {:induction false} SuffixAfter(b: Buffered, data: seq<Byte>, kept: seq<Byte>, maxBytes: nat)
    requires NewestSuffix(b, maxBytes) && |kept| <= maxBytes && |kept| <= |b.contents| + |data|
    requires kept == (b.contents + data)[|b.contents + data| - |kept|..] && (|b.contents| + |data| - |kept|) % 2 == 0
    ensures
      var dropped := b.dropped + (|b.contents| + |data| - |kept|);
      NewestSuffix(Buffered(kept, b.written + data, b.taken, dropped), maxBytes)
  {
    NewestAfter(b.contents, b.written, data, |kept|);
  }

  lemma {:induction false} NewestAfter(contents: seq<Byte>, written: seq<Byte>, data: seq<Byte>, kept: nat)
    requires |contents| <= |written| && contents == written[|written| - |contents|..] && kept <= |contents + data|
    ensures (written + data)[|written + data| - kept..] == (contents + data)[|contents + data| - kept..]
  {
    assert written == written[..|written| - |contents|] + contents;
    assert written + data == written[..|written| - |contents|] + (contents + data);
  }

  lemma {:induction false} CapStep(contents: seq<Byte>, data: seq<Byte>, maxBytes: nat)
    requires maxBytes % 2 == 0 && maxBytes > 0 && |contents| <= maxBytes
    ensures
      var all, kept := contents + data, AfterWrite(contents, data, Some(maxBytes));
      && |kept| <= maxBytes && |kept| <= |all| && kept == all[|all| - |kept|..]
      && (|all| - |kept|) % 2 == 0 && (|kept| < |all| ==> |kept| >= maxBytes - 1)
  {
  }

  // ---------- the noise loop ----------

  // Position x of a loop of t samples.
  function Wrap(x: nat, t: nat): (w: nat)
    requires t > 0
    ensures w < t
  {
    if x < t then x else Wrap(x - t, t)
  }

  // n samples of the endless repetition of the buffer, from a position on.
  function Looped(buffer: seq<int>, from: nat, n: nat): seq<int>
    requires buffer != []
  {
    seq(n, i requires 0 <= i < n => buffer[Wrap(from + i, |buffer|)])
  }

  // Two slices; a slice end past the buffer stops at its end.
  function FrameOf(buffer: seq<int>, offset: nat, n: nat): seq<int>
    requires buffer != []
  {
    FrameFrom(buffer, offset % |buffer|, n)
  }

  class AudioMixer {
    const buffer: seq<int>
    const amplitude: int
    var offset: nat
    var enabled: bool

    constructor (buffer: seq<int>, amplitude: int, enabled: bool)
      ensures this.buffer == buffer && this.amplitude == amplitude && this.enabled == enabled && offset == 0
    {
      this.buffer, this.amplitude, this.enabled, offset := buffer, amplitude, enabled, 0;
    }

    method NextFrame(n: nat) returns (frame: seq<int>)
      requires buffer != []
      modifies this`offset
      ensures !enabled || amplitude == 0 ==> frame == seq(n, _ => 0) && offset == old(offset)
      ensures enabled && amplitude != 0 ==>
                frame == FrameOf(buffer, old(offset), n) && offset == (old(offset) % |buffer| + n) % |buffer|
    {
      if !enabled || amplitude == 0 {
        return seq(n, _ => 0);
      }
      var total := |buffer|;
      var start := offset % total;
      var end := start + n;
      if end <= total {
        frame := buffer[start..end];
      } else {
        frame := buffer[start..] + buffer[..if end - total <= total then end - total else total];
      }
      offset := end % total;
    }
  }

  lemma {:induction false} WrapIsMod(x: nat, t: nat)
    requires t > 0
    ensures Wrap(x, t) == x % t
  {
    if x >= t {
      WrapIsMod(x - t, t);
      ModMinusOne(x, t);
    } else {
      RemainderIsUnique(x, t, 0, x);
    }
  }

  lemma {:induction false} ModMinusOne(x: nat, t: nat)
    requires 0 < t <= x
    ensures (x - t) % t == x % t
  {
    var q, r := (x - t) / t, (x - t) % t;
    assert x == (q + 1) * t + r;
    RemainderIsUnique(x, t, q + 1, r);
  }

  lemma {:induction false} RemainderIsUnique(x: nat, t: nat, q: nat, r: nat)
    requires t > 0 && r < t && x == q * t + r
    ensures x % t == r
  {
    var q', r' := x / t, x % t;
    assert x == q' * t + r' && 0 <= r' < t;
    assert (q - q') * t == r' - r;
    if q > q' {
      MulAtLeast(q - q', t);
    } else if q < q' {
      MulAtLeast(q' - q, t);
    }
  }

  lemma {:induction false} MulAtLeast(a: int, t: int)
    requires a >= 1 && t >= 0
    ensures a * t >= t
  {
    assert a * t == (a - 1) * t + t;
    assert (a - 1) * t >= 0;
  }

  lemma {:induction false} WrapAdd(x: nat, j: nat, t: nat)
    requires t > 0
    ensures Wrap(Wrap(x, t) + j, t) == Wrap(x + j, t)
  {
    if x >= t {
      WrapAdd(x - t, j, t);
    }
  }

  // The slices, from a position already inside the loop.
  function FrameFrom(buffer: seq<int>, start: nat, n: nat): seq<int>
    requires start < |buffer|
  {
    var end := start + n;
    if end <= |buffer| then buffer[start..end]
    else buffer[start..] + buffer[..if end - |buffer| <= |buffer| then end - |buffer| else |buffer|]
  }

  lemma {:induction false} FrameFromIsLooped(buffer: seq<int>, start: nat, n: nat)
    requires start < |buffer|
    ensures |FrameFrom(buffer, start, n)| == n <==> start + n <= 2 * |buffer|
    ensures start + n <= 2 * |buffer| ==> FrameFrom(buffer, start, n) == Looped(buffer, start, n)
  {
    FrameLength(buffer, start, n);
    if start + n <= 2 * |buffer| {
      var frame, looped := FrameFrom(buffer, start, n), Looped(buffer, start, n);
      forall i | 0 <= i < n ensures frame[i] == looped[i] {
        WrapOnce(start + i, |buffer|);
        FrameAt(buffer, start, n, i);
      }
    }
  }

  lemma {:induction false} FrameLength(buffer: seq<int>, start: nat, n: nat)
    requires start < |buffer|
    ensures |FrameFrom(buffer, start, n)| == n <==> start + n <= 2 * |buffer|
  {
  }

  lemma {:induction false} WrapOnce(x: nat, t: nat)
    requires t > 0 && x < 2 * t
    ensures Wrap(x, t) == if x < t then x else x - t
  {
  }

  lemma {:induction false} FrameAt(buffer: seq<int>, start: nat, n: nat, i: nat)
    requires start < |buffer| && start + n <= 2 * |buffer| && i < n
    ensures FrameFrom(buffer, start, n)[i] ==
              if start + i < |buffer| then buffer[start + i] else buffer[start + i - |buffer|]
  {
  }

  lemma {:induction false} LoopedFromWrapped(buffer: seq<int>, from: nat, n: nat)
    requires buffer != []
    ensures Looped(buffer, Wrap(from, |buffer|), n) == Looped(buffer, from, n)
  {
    forall i | 0 <= i < n ensures Looped(buffer, Wrap(from, |buffer|), n)[i] == Looped(buffer, from, n)[i] {
      WrapAdd(from, i, |buffer|);
    }
  }

  // A frame has n samples exactly when it needs to pass the loop's end at most once, and then
  // it is the loop played from the current position.
  lemma {:induction false} FrameIsLooped(buffer: seq<int>, offset: nat, n: nat)
    requires buffer != []
    ensures |FrameOf(buffer, offset, n)| == n <==> offset % |buffer| + n <= 2 * |buffer|
    ensures offset % |buffer| + n <= 2 * |buffer| ==> FrameOf(buffer, offset, n) == Looped(buffer, offset, n)
  {
    WrapIsMod(offset, |buffer|);
    FrameFromIsLooped(buffer, Wrap(offset, |buffer|), n);
    LoopedFromWrapped(buffer, offset, n);
  }

  // Frames taken one after another are the loop played without a seam.
  lemma {:induction false} FramesAreSeamless(buffer: seq<int>, offset: nat, n: nat, m: nat)
    requires buffer != [] && n <= |buffer| && m <= |buffer|
    ensures
      var offset' := (offset % |buffer| + n) % |buffer|;
      FrameOf(buffer, offset, n) + FrameOf(buffer, offset', m) == Looped(buffer, offset, n + m)
  {
    var t := |buffer|;
    var offset' := (offset % t + n) % t;
    FrameIsLooped(buffer, offset, n);
    FrameIsLooped(buffer, offset', m);
    NextOffset(offset, n, t);
    LoopedFromWrapped(buffer, offset + n, m);
    LoopedConcat(buffer, offset, n, m);
  }

  lemma {:induction false} NextOffset(offset: nat, n: nat, t: nat)
    requires t > 0
    ensures (offset % t + n) % t == Wrap(offset + n, t)
  {
    WrapIsMod(offset, t);
    WrapIsMod(Wrap(offset, t) + n, t);
    WrapAdd(offset, n, t);
  }

  lemma {:induction false} LoopedConcat(buffer: seq<int>, from: nat, n: nat, m: nat)
    requires buffer != []
    ensures Looped(buffer, from, n) + Looped(buffer, from + n, m) == Looped(buffer, from, n + m)
  {
  }
}
