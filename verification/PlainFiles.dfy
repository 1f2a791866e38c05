/** What a plain byte sequence promises its reader and writer, in terms of bytes and positions alone. */
module PlainFiles {
  import opened Basics
  import opened Bitmap
  import opened FlatFile
  import opened OpenFiles

  /** Two operations in a row. */
  lemma TwoSteps(p: Plain, mayRead: bool, mayWrite: bool, a: Op, b: Op)
    requires mayWrite ==> Allowed(p, a) && Allowed(PlainStep(p, mayRead, mayWrite, a).0, b)
    ensures AllAllowed(p, mayRead, mayWrite, [a, b])
    ensures var first := PlainStep(p, mayRead, mayWrite, a);
            var second := PlainStep(first.0, mayRead, mayWrite, b);
            PlainRun(p, mayRead, mayWrite, [a, b]) == (second.0, [first.1, second.1])
  {
    hide PlainStep, Allowed;
    assert [a, b][1..] == [b];
    var first := PlainStep(p, mayRead, mayWrite, a);
    OneStep(first.0, mayRead, mayWrite, b);
    var rest := PlainRun(first.0, mayRead, mayWrite, [a, b][1..]);
    assert PlainRun(p, mayRead, mayWrite, [a, b]) == (rest.0, [first.1] + rest.1);
    assert [first.1] + rest.1 == [first.1, rest.1[0]];
  }

  lemma OneStep(p: Plain, mayRead: bool, mayWrite: bool, a: Op)
    requires mayWrite ==> Allowed(p, a)
    ensures AllAllowed(p, mayRead, mayWrite, [a])
    ensures var step := PlainStep(p, mayRead, mayWrite, a);
            PlainRun(p, mayRead, mayWrite, [a]) == (step.0, [step.1])
  {
    hide PlainStep, Allowed;
    assert [a][1..] == [];
    var step := PlainStep(p, mayRead, mayWrite, a);
    var rest := PlainRun(step.0, mayRead, mayWrite, [a][1..]);
    assert rest.0 == step.0 && rest.1 == [];
    assert PlainRun(p, mayRead, mayWrite, [a]) == (rest.0, [step.1] + rest.1);
    assert [step.1] + rest.1 == [step.1];
  }

  // ----- Seeking -----

  /** Going n back from the end and reading n bytes gives the last n bytes. */
  lemma LastBytes(p: Plain, mayWrite: bool, n: int)
    requires 0 <= n <= |p.bytes|
    ensures AllAllowed(p, true, mayWrite, [SeekOp(-n, FromEnd), ReadOp(n)])
    ensures var run := PlainRun(p, true, mayWrite, [SeekOp(-n, FromEnd), ReadOp(n)]);
            && run.1 == [Reply(Ok, [], 0), Reply(Ok, p.bytes[|p.bytes| - n..], n)]
            && run.0 == Plain(p.bytes, |p.bytes|)
  {
    TwoSteps(p, true, mayWrite, SeekOp(-n, FromEnd), ReadOp(n));
    assert p.bytes[|p.bytes| - n..][..n] == p.bytes[|p.bytes| - n..];
    assert ReadBytes(p.bytes, |p.bytes| - n, n) == p.bytes[|p.bytes| - n..];
  }

  /** Going to the end and writing appends. */
  lemma Appends(p: Plain, mayRead: bool, data: seq<byte>)
    requires |p.bytes| + |data| <= MAX_FILE_BYTES
    ensures AllAllowed(p, mayRead, true, [SeekOp(0, FromEnd), WriteOp(data)])
    ensures var run := PlainRun(p, mayRead, true, [SeekOp(0, FromEnd), WriteOp(data)]);
            && run.1 == [Reply(Ok, [], 0), Reply(Ok, [], |data|)]
            && run.0 == Plain(p.bytes + data, |p.bytes| + |data|)
  {
    TwoSteps(p, mayRead, true, SeekOp(0, FromEnd), WriteOp(data));
  }

  /** Seeking by nothing moves nothing. */
  lemma StaysPut(p: Plain, mayRead: bool, mayWrite: bool)
    ensures AllAllowed(p, mayRead, mayWrite, [SeekOp(0, FromCurrent)])
    ensures PlainRun(p, mayRead, mayWrite, [SeekOp(0, FromCurrent)]) == (p, [Reply(Ok, [], 0)])
  {
    OneStep(p, mayRead, mayWrite, SeekOp(0, FromCurrent));
  }

  /** A seek from the start and one from there make one seek from the start. */
  lemma SeeksAdd(p: Plain, mayRead: bool, mayWrite: bool, k: int, d: int)
    requires k >= 0 && k + d >= 0
    ensures AllAllowed(p, mayRead, mayWrite, [SeekOp(k, FromStart), SeekOp(d, FromCurrent)])
    ensures AllAllowed(p, mayRead, mayWrite, [SeekOp(k + d, FromStart)])
    ensures PlainRun(p, mayRead, mayWrite, [SeekOp(k, FromStart), SeekOp(d, FromCurrent)]).0 ==
            PlainRun(p, mayRead, mayWrite, [SeekOp(k + d, FromStart)]).0 == p.(position := k + d)
    ensures PlainRun(p, mayRead, mayWrite, [SeekOp(k, FromStart), SeekOp(d, FromCurrent)]).1 ==
            [Reply(Ok, [], 0), Reply(Ok, [], 0)]
  {
    TwoSteps(p, mayRead, mayWrite, SeekOp(k, FromStart), SeekOp(d, FromCurrent));
    OneStep(p, mayRead, mayWrite, SeekOp(k + d, FromStart));
  }

  /** A seek before the start, or from nowhere, is refused and moves nothing. */
  lemma SeeksRefused(p: Plain, mayRead: bool, mayWrite: bool, offset: int, origin: Origin)
    requires || origin == Other || (origin == FromStart && offset < 0) || (origin == FromCurrent && p.position + offset < 0)
             || (origin == FromEnd && |p.bytes| + offset < 0)
    ensures AllAllowed(p, mayRead, mayWrite, [SeekOp(offset, origin)])
    ensures PlainRun(p, mayRead, mayWrite, [SeekOp(offset, origin)]) ==
            (p, [Reply(if origin == Other then InvalidArgument else OutOfBounds, [], 0)])
  {
    OneStep(p, mayRead, mayWrite, SeekOp(offset, origin));
  }

  // ----- Reading and writing -----

  /** A read gives the bytes from the position on, as many as asked for and there are, and moves behind them. */
  lemma Reads(p: Plain, mayWrite: bool, n: nat)
    ensures AllAllowed(p, true, mayWrite, [ReadOp(n)])
    ensures var run := PlainRun(p, true, mayWrite, [ReadOp(n)]);
            && |run.1| == 1 && run.1[0].status == Ok && run.1[0].count == |run.1[0].bytes| <= n
            && (run.1[0].count < n ==> run.0.position >= |p.bytes|)
            && (forall i :: 0 <= i < run.1[0].count ==>
                  p.position + i < |p.bytes| && run.1[0].bytes[i] == p.bytes[p.position + i])
            && run.0 == Plain(p.bytes, p.position + run.1[0].count)
  {
    OneStep(p, true, mayWrite, ReadOp(n));
  }

  /** What has been written reads back, wherever it was written, and every other byte stays. */
  lemma WritesRead(p: Plain, data: seq<byte>)
    requires p.position <= |p.bytes| && p.position + |data| <= MAX_FILE_BYTES
    ensures AllAllowed(p, true, true, [WriteOp(data)])
    ensures var run := PlainRun(p, true, true, [WriteOp(data)]);
            && run.1 == [Reply(Ok, [], |data|)] && run.0.position == p.position + |data|
            && |run.0.bytes| == (if p.position + |data| > |p.bytes| then p.position + |data| else |p.bytes|)
            && run.0.bytes[p.position..p.position + |data|] == data
            && (forall k :: 0 <= k < |p.bytes| && !(p.position <= k < p.position + |data|) ==> run.0.bytes[k] == p.bytes[k])
    ensures var q := PlainRun(p, true, true, [WriteOp(data)]).0;
            && AllAllowed(q, true, true, [SeekOp(-|data|, FromCurrent), ReadOp(|data|)])
            && PlainRun(q, true, true, [SeekOp(-|data|, FromCurrent), ReadOp(|data|)]) ==
               (q, [Reply(Ok, [], 0), Reply(Ok, data, |data|)])
  {
    OneStep(p, true, true, WriteOp(data));
    var q := PlainRun(p, true, true, [WriteOp(data)]).0;
    TwoSteps(q, true, true, SeekOp(-|data|, FromCurrent), ReadOp(|data|));
    assert q.bytes[p.position..p.position + |data|] == data;
  }

  /** Without the right to read a read is refused, and changes nothing. */
  lemma MayNotRead(p: Plain, mayWrite: bool, n: nat)
    ensures AllAllowed(p, false, mayWrite, [ReadOp(n)])
    ensures PlainRun(p, false, mayWrite, [ReadOp(n)]) == (p, [Reply(InvalidArgument, [], 0)])
  {
    OneStep(p, false, mayWrite, ReadOp(n));
  }

  /** Without the right to write a write is refused, and changes nothing. */
  lemma MayNotWrite(p: Plain, mayRead: bool, data: seq<byte>)
    ensures AllAllowed(p, mayRead, false, [WriteOp(data)])
    ensures PlainRun(p, mayRead, false, [WriteOp(data)]) == (p, [Reply(InvalidArgument, [], 0)])
  {
    OneStep(p, mayRead, false, WriteOp(data));
  }
}
