/** Which pieces the splitter finds, said by the bytes of the two separators. */
module SseFrames {
  import opened Text
  import opened Sse

  /** Two line feeds, or twice a carriage return and a line feed. */
  function Spelled(sep: Separator): Bytes { if sep == Lf then [10, 10] else [13, 10, 13, 10] }

  predicate StandsAt(b: Bytes, p: nat, sep: Separator) {
    p + |Spelled(sep)| <= |b| && b[p..p + |Spelled(sep)|] == Spelled(sep)
  }

  lemma SeparatorMeans(b: Bytes, p: nat, sep: Separator)
    ensures At(b, p, sep) <==> StandsAt(b, p, sep)
    ensures Width(sep) == |Spelled(sep)|
  {
    var n := |Spelled(sep)|;
    if p + n <= |b| {
      var t := b[p..p + n];
      assert forall i :: 0 <= i < n ==> t[i] == b[p + i];
      assert b[p] == t[0] && b[p + 1] == t[1];
      if sep == Crlf {
        assert b[p + 2] == t[2] && b[p + 3] == t[3];
      }
      if At(b, p, sep) {
        assert t == Spelled(sep);
      }
    }
  }

  ghost predicate NoneIn(b: Bytes, sep: Separator) { forall p :: 0 <= p < |b| ==> !StandsAt(b, p, sep) }

  lemma NoneMeans(b: Bytes, sep: Separator)
    ensures NoneIn(b, sep) <==> First(b, sep, 0) == |b|
  {
    forall p | 0 <= p < |b| ensures At(b, p, sep) <==> StandsAt(b, p, sep) { SeparatorMeans(b, p, sep); }
    hide StandsAt, At;
    if NoneIn(b, sep) {
      assert First(b, sep, 0) == |b|;
    }
  }

  /** Splitting leaves no separator of either kind over. */
  lemma {:induction false} LeftoverIsClean(b: Bytes)
    ensures NoneIn(Split(b).1, Lf) && NoneIn(Split(b).1, Crlf)
    decreases |b|
  {
    hide First, NoneIn, At;
    var (p, sep) := Cut(b);
    if p == |b| {
      NoneMeans(b, Lf);
      NoneMeans(b, Crlf);
    } else {
      LeftoverIsClean(b[p + Width(sep)..]);
    }
  }

  /** What holds no separator is left over as it is. */
  lemma CleanIsLeft(b: Bytes)
    requires NoneIn(b, Lf) && NoneIn(b, Crlf)
    ensures Split(b) == ([], b)
  {
    NoneMeans(b, Lf);
    NoneMeans(b, Crlf);
    hide First, NoneIn, At;
  }

  lemma CutAtFirst(body: Bytes, sep: Separator, rest: Bytes)
    requires var s := body + Spelled(sep) + rest; First(s, sep, 0) == |body| && (sep == Crlf ==> First(s, Lf, 0) == |s|)
    ensures var s := body + Spelled(sep) + rest;
            Cut(s) == (|body|, sep) && s[..|body|] == body && s[|body| + Width(sep)..] == rest
  {
    SeparatorMeans([], 0, sep);
  }

  /** The first place of a separator. */
  lemma FirstStands(s: Bytes, p: nat, sep: Separator)
    requires StandsAt(s, p, sep) && forall j :: 0 <= j < p ==> !StandsAt(s, j, sep)
    ensures First(s, sep, 0) == p
  {
    SeparatorMeans(s, p, sep);
    forall j | 0 <= j < p ensures !At(s, j, sep) { SeparatorMeans(s, j, sep); }
    hide StandsAt;
    FirstIs(s, sep, p);
  }

  lemma BodyEnds(body: Bytes, sep: Separator, rest: Bytes)
    ensures StandsAt(body + Spelled(sep) + rest, |body|, sep)
  {
  }

  lemma SplitCut(body: Bytes, sep: Separator, rest: Bytes)
    requires var s := body + Spelled(sep) + rest;
             Cut(s) == (|body|, sep) && s[..|body|] == body && s[|body| + Width(sep)..] == rest && |body| < |s|
    ensures Split(body + Spelled(sep) + rest) == ([Raw(body, sep)] + Split(rest).0, Split(rest).1)
  {
    hide Cut, Spelled;
  }

  /** Everything up to the first two line feeds is a frame, whatever stands in it. */
  lemma FrameUpToLineFeeds(body: Bytes, rest: Bytes)
    requires forall j :: 0 <= j < |body| ==> !StandsAt(body + [10, 10] + rest, j, Lf)
    ensures Split(body + [10, 10] + rest) == ([Raw(body, Lf)] + Split(rest).0, Split(rest).1)
  {
    var s := body + Spelled(Lf) + rest;
    assert s == body + [10, 10] + rest;
    BodyEnds(body, Lf, rest);
    FirstStands(s, |body|, Lf);
    CutAtFirst(body, Lf, rest);
    hide Split, Cut, First, StandsAt;
    SplitCut(body, Lf, rest);
  }

  /** Where nowhere two line feeds follow each other, everything up to the first CRLF pair is one. */
  lemma FrameUpToCrlfs(body: Bytes, rest: Bytes)
    requires NoneIn(body + [13, 10, 13, 10] + rest, Lf)
    requires forall j :: 0 <= j < |body| ==> !StandsAt(body + [13, 10, 13, 10] + rest, j, Crlf)
    ensures Split(body + [13, 10, 13, 10] + rest) == ([Raw(body, Crlf)] + Split(rest).0, Split(rest).1)
  {
    var s := body + Spelled(Crlf) + rest;
    assert s == body + [13, 10, 13, 10] + rest;
    BodyEnds(body, Crlf, rest);
    FirstStands(s, |body|, Crlf);
    NoneMeans(s, Lf);
    CutAtFirst(body, Crlf, rest);
    hide Split, Cut, First, StandsAt;
    SplitCut(body, Crlf, rest);
  }
}
