/**
 * The incremental splitter of server-sent events (format of section 9.2.6 of the WHATWG HTML Living
 * Standard): frame boundaries in a byte stream that arrives in chunks.
 */
module Sse {
  import opened Text

  type Byte = n: nat | n < 256

  type Bytes = seq<Byte>

  const LF: Byte := 10
  const CR: Byte := 13

  /** The two frame separators the splitter knows. */
  datatype Separator = Lf | Crlf

  function Width(sep: Separator): (w: nat)
    ensures w > 0
  {
    if sep.Lf? then 2 else 4
  }

  predicate At(b: Bytes, p: nat, sep: Separator) {
    && p + Width(sep) <= |b|
    && match sep
       case Lf => b[p] == LF && b[p + 1] == LF
       case Crlf => b[p] == CR && b[p + 1] == LF && b[p + 2] == CR && b[p + 3] == LF
  }

  /** The first position of a separator from `i` on, or the length. */
  function First(b: Bytes, sep: Separator, i: nat): (p: nat)
    requires i <= |b|
    ensures i <= p <= |b| && (p < |b| ==> At(b, p, sep))
    ensures forall j :: i <= j < p ==> !At(b, j, sep)
    decreases |b| - i
  {
    if i == |b| || At(b, i, sep) then i else First(b, sep, i + 1)
  }

  /** One frame as raw bytes, with the separator that ended it. */
  datatype Raw = Raw(body: Bytes, sep: Separator)

  function SeparatorBytes(sep: Separator): Bytes {
    match sep
    case Lf => [LF, LF]
    case Crlf => [CR, LF, CR, LF]
  }

  /** Where the next frame ends: any blank line of line feeds goes before every one of CRLFs. */
  function Cut(b: Bytes): (cut: (nat, Separator))
    ensures cut.0 <= |b|
    ensures cut.0 < |b| ==> cut.0 + Width(cut.1) <= |b| && At(b, cut.0, cut.1)
  {
    if First(b, Lf, 0) < |b| then (First(b, Lf, 0), Lf) else (First(b, Crlf, 0), Crlf)
  }

  /** The complete frames of a buffer and the bytes left over. */
  function Split(b: Bytes): (seq<Raw>, Bytes)
    decreases |b|
  {
    var (p, sep) := Cut(b);
    if p == |b| then ([], b)
    else
      var (raws, rest) := Split(b[p + Width(sep)..]);
      ([Raw(b[..p], sep)] + raws, rest)
  }

  function Flat(raws: seq<Raw>): Bytes {
    if raws == [] then [] else raws[0].body + SeparatorBytes(raws[0].sep) + Flat(raws[1..])
  }

  /** The frames and the leftover of a stream that arrives in chunks. */
  function Feed(buffer: Bytes, chunks: seq<Bytes>): (seq<Raw>, Bytes)
    decreases |chunks|
  {
    if chunks == [] then ([], buffer)
    else
      var (raws, rest) := Split(buffer + chunks[0]);
      var (more, left) := Feed(rest, chunks[1..]);
      (raws + more, left)
  }

  function Concat(chunks: seq<Bytes>): Bytes {
    if chunks == [] then [] else chunks[0] + Concat(chunks[1..])
  }

  // ----- the parser -----

  class Parser<Frame> {
    var buffer: Bytes
    /** Lossy decoding of a frame's bytes and extraction of its fields. */
    const parse: Bytes -> Frame

    constructor (parse: Bytes -> Frame)
      ensures buffer == [] && this.parse == parse
    {
      buffer, this.parse := [], parse;
    }

    method Push(chunk: Bytes) returns (frames: seq<Frame>)
      modifies this
      ensures var (raws, rest) := Split(old(buffer) + chunk); buffer == rest && frames == Parsed(raws, parse)
    {
      hide Cut, At;
      buffer := buffer + chunk;
      frames := [];
      ghost var all := buffer;
      ghost var raws := [];
      assert raws + Split(all).0 == Split(all).0;
      while true
        invariant frames == Parsed(raws, parse)
        invariant Split(all) == (raws + Split(buffer).0, Split(buffer).1)
        decreases |buffer|
      {
        ghost var before := buffer;
        var body := NextFrame();
        if body.None? {
          assert raws + [] == raws;
          return;
        }
        ghost var raw := Raw(body.value, Cut(before).1);
        assert raws + ([raw] + Split(buffer).0) == (raws + [raw]) + Split(buffer).0;
        raws := raws + [raw];
        frames := frames + [parse(body.value)];
      }
    }

    /** End of stream: the leftover, if any, is one last frame. */
    method Finish() returns (frames: seq<Frame>)
      modifies this
      ensures buffer == [] && frames == if old(buffer) == [] then [] else [parse(old(buffer))]
    {
      if buffer == [] {
        return [];
      }
      frames := [parse(buffer)];
      buffer := [];
    }

    method NextFrame() returns (body: Option<Bytes>)
      modifies this
      ensures var (p, sep) := Cut(old(buffer));
              if p == |old(buffer)| then body == None && buffer == old(buffer)
              else body == Some(old(buffer)[..p]) && buffer == old(buffer)[p + Width(sep)..]
    {
      var sep := Lf;
      var p := Position(buffer, Lf);
      if p == |buffer| {
        sep := Crlf;
        p := Position(buffer, Crlf);
        if p == |buffer| {
          return None;
        }
      }
      body := Some(buffer[..p]);
      buffer := buffer[p + Width(sep)..];
    }
  }

  function Parsed<Frame>(raws: seq<Raw>, parse: Bytes -> Frame): seq<Frame> {
    seq(|raws|, i requires 0 <= i < |raws| => parse(raws[i].body))
  }

  method Position(b: Bytes, sep: Separator) returns (p: nat)
    ensures p == First(b, sep, 0)
  {
    p := 0;
    while p < |b| && !At(b, p, sep)
      invariant p <= |b| && First(b, sep, p) == First(b, sep, 0)
    {
      p := p + 1;
    }
  }

  // ----- nothing is lost -----

  lemma CutIsWhole(b: Bytes)
    requires Cut(b).0 < |b|
    ensures var (p, sep) := Cut(b);
            p + Width(sep) <= |b| && b == b[..p] + SeparatorBytes(sep) + b[p + Width(sep)..]
  {
    var (p, sep) := Cut(b);
    assert b[p..p + Width(sep)] == SeparatorBytes(sep);
  }

  lemma FlatCons(raw: Raw, raws: seq<Raw>)
    ensures Flat([raw] + raws) == raw.body + SeparatorBytes(raw.sep) + Flat(raws)
  {
    assert ([raw] + raws)[1..] == raws;
  }

  /** Frame bodies, separators and leftover are the input, byte for byte. */
  lemma {:induction false} SplitIsLossless(b: Bytes)
    ensures Flat(Split(b).0) + Split(b).1 == b
    decreases |b|
  {
    hide Cut, Flat, SeparatorBytes, Width, At;
    var (p, sep) := Cut(b);
    if p == |b| {
      assert Flat([]) == [] by { FlatNone(); }
      assert [] + b == b;
    } else {
      var tail := b[p + Width(sep)..];
      CutIsWhole(b);
      SplitIsLossless(tail);
      var (raws, rest) := Split(tail);
      FlatCons(Raw(b[..p], sep), raws);
      var head := b[..p] + SeparatorBytes(sep);
      Assoc(head, Flat(raws), rest);
    }
  }

  lemma FlatNone()
    ensures Flat([]) == []
  {
  }

  lemma {:induction false} FlatAppend(a: seq<Raw>, b: seq<Raw>)
    ensures Flat(a + b) == Flat(a) + Flat(b)
  {
    hide *;
    if a == [] {
      FlatNone();
      assert a + b == b && [] + Flat(b) == Flat(b);
    } else {
      FlatAppend(a[1..], b);
      FlatCons(a[0], a[1..] + b);
      FlatCons(a[0], a[1..]);
      Assoc([a[0]], a[1..], b);
      assert [a[0]] + a[1..] == a;
      Assoc(a[0].body + SeparatorBytes(a[0].sep), Flat(a[1..]), Flat(b));
    }
  }

  lemma FedWhole(done: Bytes, more: Bytes, left: Bytes, rest: Bytes, later: Bytes, buffer: Bytes, chunk: Bytes)
    requires done + rest == buffer + chunk && more + left == rest + later
    ensures done + more + left == buffer + (chunk + later)
  {
    assert done + more + left == done + (more + left);
    assert done + (rest + later) == (done + rest) + later;
    assert (buffer + chunk) + later == buffer + (chunk + later);
  }

  /** Whatever the chunks, nothing is lost or reordered. */
  lemma {:induction false} FeedIsLossless(buffer: Bytes, chunks: seq<Bytes>)
    ensures Flat(Feed(buffer, chunks).0) + Feed(buffer, chunks).1 == buffer + Concat(chunks)
    decreases |chunks|
  {
    hide Split, Flat;
    if chunks == [] {
      FlatNone();
      assert [] + buffer == buffer == buffer + [];
    } else {
      var (raws, rest) := Split(buffer + chunks[0]);
      var (more, left) := Feed(rest, chunks[1..]);
      SplitIsLossless(buffer + chunks[0]);
      FeedIsLossless(rest, chunks[1..]);
      FlatAppend(raws, more);
      FedWhole(Flat(raws), Flat(more), left, rest, Concat(chunks[1..]), buffer, chunks[0]);
    }
  }

  // ----- independence of the chunks -----

  /** No blank line of CRLFs is followed by one of line feeds. */
  predicate OneWay(s: Bytes) {
    forall p, q :: 0 <= p < |s| && 0 <= q < |s| && At(s, p, Crlf) && At(s, q, Lf) ==> q < p + 3
  }

  lemma OneWaySuffix(s: Bytes, k: nat)
    requires k <= |s| && OneWay(s)
    ensures OneWay(s[k..])
  {
    var t := s[k..];
    forall p, q | 0 <= p < |t| && 0 <= q < |t| && At(t, p, Crlf) && At(t, q, Lf)
      ensures q < p + 3
    {
      assert At(s, k + p, Crlf) && At(s, k + q, Lf);
    }
  }

  lemma AtPrefix(a: Bytes, b: Bytes, p: nat, sep: Separator)
    requires p + Width(sep) <= |a|
    ensures At(a + b, p, sep) <==> At(a, p, sep)
  {
  }

  lemma FirstIs(b: Bytes, sep: Separator, p: nat)
    requires At(b, p, sep) && forall j :: 0 <= j < p ==> !At(b, j, sep)
    ensures First(b, sep, 0) == p
  {
  }

  lemma NoneAt(b: Bytes, sep: Separator)
    requires forall j :: 0 <= j < |b| ==> !At(b, j, sep)
    ensures First(b, sep, 0) == |b|
  {
  }

  /** More input does not move the next cut, when no blank line of line feeds can still overtake it. */
  lemma CutStays(a: Bytes, b: Bytes)
    requires Cut(a).0 < |a| && OneWay(a + b)
    ensures Cut(a + b) == Cut(a)
  {
    var (p, sep) := Cut(a);
    var s := a + b;
    AtPrefix(a, b, p, sep);
    assert forall j: nat :: j < p ==> At(s, j, sep) == At(a, j, sep);
    FirstIs(s, sep, p);
    if sep == Crlf {
      assert forall q: nat :: q < p + 3 ==> At(s, q, Lf) == At(a, q, Lf);
      NoneAt(s, Lf);
    }
  }

  lemma {:induction false} SplitAppend(a: Bytes, b: Bytes)
    requires OneWay(a + b)
    ensures var (raws, rest) := Split(a);
            && Split(a + b) == (raws + Split(rest + b).0, Split(rest + b).1)
            && OneWay(rest + b) && Split(rest) == ([], rest)
    decreases |a|
  {
    hide Cut, OneWay, At;
    var (p, sep) := Cut(a);
    if p == |a| {
      assert [] + Split(a + b).0 == Split(a + b).0;
    } else {
      CutStays(a, b);
      var tail := a[p + Width(sep)..];
      OneWaySuffix(a + b, p + Width(sep));
      assert (a + b)[p + Width(sep)..] == tail + b;
      SplitAppend(tail, b);
      var raw := Raw(a[..p], sep);
      var (raws, rest) := Split(tail);
      assert (a + b)[..p] == a[..p];
      assert [raw] + (raws + Split(rest + b).0) == ([raw] + raws) + Split(rest + b).0;
    }
  }

  lemma {:induction false} FeedAsWhole(buffer: Bytes, chunks: seq<Bytes>)
    requires OneWay(buffer + Concat(chunks)) && Split(buffer) == ([], buffer)
    ensures Feed(buffer, chunks) == Split(buffer + Concat(chunks))
    decreases |chunks|
  {
    if chunks == [] {
      assert buffer + [] == buffer;
    } else {
      var a, b := buffer + chunks[0], Concat(chunks[1..]);
      assert a + b == buffer + Concat(chunks);
      SplitAppend(a, b);
      FeedAsWhole(Split(a).1, chunks[1..]);
    }
  }

  /** Some frame ends exactly `n` bytes into the stream. */
  predicate CutAt(raws: seq<Raw>, n: nat) {
    exists k :: 0 <= k <= |raws| && |Flat(raws[..k])| == n
  }

  /** A buffer whose only blank line of CRLFs is its end leaves nothing over. */
  lemma {:induction false} EndsWithCrlf(a: Bytes)
    requires |a| >= 4 && At(a, |a| - 4, Crlf)
    requires forall p :: 0 <= p < |a| - 4 ==> !At(a, p, Crlf)
    ensures Split(a).1 == []
    decreases |a|
  {
    var (p, sep) := Cut(a);
    if sep == Lf {
      assert p + 2 <= |a| - 4;
      var tail := a[p + 2..];
      assert forall j: nat :: j < |tail| - 4 ==> At(tail, j, Crlf) == At(a, p + 2 + j, Crlf);
      EndsWithCrlf(tail);
    } else {
      FirstIs(a, Crlf, |a| - 4);
      assert a[|a|..] == [];
    }
  }

  lemma FlatStartsWith(raw: Raw, raws: seq<Raw>, k: nat)
    requires k <= |raws|
    ensures Flat(([raw] + raws)[..k + 1]) == raw.body + SeparatorBytes(raw.sep) + Flat(raws[..k])
  {
    var s := ([raw] + raws)[..k + 1];
    assert s[0] == raw && s[1..] == raws[..k];
  }

  lemma NoCutBehind(raw: Raw, raws: seq<Raw>, n: nat)
    requires var c := |raw.body| + Width(raw.sep); n > 0 && n != c && (c < n ==> !CutAt(raws, n - c))
    ensures !CutAt([raw] + raws, n)
  {
    FlatNone();
    hide Flat;
    var all := [raw] + raws;
    forall k | 0 <= k <= |all|
      ensures |Flat(all[..k])| != n
    {
      if k > 0 {
        FlatStartsWith(raw, raws, k - 1);
      } else {
        assert all[..0] == [];
      }
    }
  }

  /** A whole buffer is not cut right behind a carriage return and line feed that a blank line of line feeds follows. */
  lemma {:induction false} NoCutBeforeLf(s: Bytes, n: nat, q: nat)
    requires 2 <= n <= |s| && s[n - 2] == CR && n - 1 <= q && At(s, q, Lf)
    ensures !CutAt(Split(s).0, n)
    decreases |s|
  {
    hide CutAt;
    var (p, sep) := Cut(s);
    assert sep == Lf && p <= q;
    var c := p + 2;
    var tail := s[c..];
    if c < n {
      assert c <= n - 2;
      assert tail[n - c - 2] == CR && At(tail, q - c, Lf);
      NoCutBeforeLf(tail, n - c, q - c);
    }
    NoCutBehind(Raw(s[..p], Lf), Split(tail).0, n);
  }

  /** A chunk that leaves nothing over cuts the stream at its end. */
  lemma ChunkEndIsCut(a: Bytes, b: Bytes)
    requires Split(a).1 == []
    ensures CutAt(Feed([], [a, b]).0, |a|)
  {
    hide Split, Flat;
    SplitIsLossless(a);
    assert [] + a == a;
    var raws := Split(a).0;
    var more := Feed([], [a, b][1..]).0;
    assert Feed([], [a, b]).0 == raws + more;
    assert (raws + more)[..|raws|] == raws && Flat(raws) + [] == Flat(raws);
  }

  lemma MixedStreamDiffers(s: Bytes, p: nat, q: nat)
    requires At(s, p, Crlf) && (forall j :: 0 <= j < p ==> !At(s, j, Crlf)) && At(s, q, Lf) && p + 3 <= q
    ensures Feed([], [s[..p + 4], s[p + 4..]]).0 != Split(s).0
  {
    hide Feed, Split, CutAt;
    var a := s[..p + 4];
    assert forall j: nat :: j < |a| - 4 ==> At(a, j, Crlf) == At(s, j, Crlf);
    EndsWithCrlf(a);
    ChunkEndIsCut(a, s[p + 4..]);
    NoCutBeforeLf(s, p + 4, q);
  }

  lemma {:induction false} FirstMixed(s: Bytes) returns (p: nat, q: nat)
    requires !OneWay(s)
    ensures At(s, p, Crlf) && (forall j :: 0 <= j < p ==> !At(s, j, Crlf)) && At(s, q, Lf) && p + 3 <= q
  {
    var p', q' :| 0 <= p' < |s| && 0 <= q' < |s| && At(s, p', Crlf) && At(s, q', Lf) && q' >= p' + 3;
    p, q := First(s, Crlf, 0), q';
  }

  /**
   * The frames and the leftover do not depend on how the stream is cut into chunks exactly when no blank
   * line of CRLFs is followed by one of line feeds; in particular when only one of the two occurs.
   */
  lemma ChunksDoNotMatter(s: Bytes)
    ensures (forall chunks :: Concat(chunks) == s ==> Feed([], chunks) == Split(s)) <==> OneWay(s)
  {
    hide Feed, Split, Concat, At;
    if OneWay(s) {
      WholeWhenOneWay(s);
    } else {
      var p, q := FirstMixed(s);
      MixedStreamDiffers(s, p, q);
      TwoChunks(s, p + 4);
    }
  }

  lemma WholeWhenOneWay(s: Bytes)
    requires OneWay(s)
    ensures forall chunks :: Concat(chunks) == s ==> Feed([], chunks) == Split(s)
  {
    forall chunks | Concat(chunks) == s
      ensures Feed([], chunks) == Split(s)
    {
      assert [] + s == s;
      FeedAsWhole([], chunks);
    }
  }

  lemma TwoChunks(s: Bytes, n: nat)
    requires n <= |s|
    ensures Concat([s[..n], s[n..]]) == s
  {
    var chunks := [s[..n], s[n..]];
    assert chunks[1..] == [s[n..]] && [s[n..]][1..] == [];
    assert Concat([s[n..]]) == s[n..] + [];
  }
}
