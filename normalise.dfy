/** Turning the decoded page texts into the line sequence the extractor scans:
    pages joined with newlines, split on newlines, each piece stripped, and
    pieces that strip to nothing dropped. */
module Normalise {
  import opened PyStr

  /** `"\n".join(page_texts)`. */
  function PageText(pages: seq<string>): string {
    Join(pages, "\n")
  }

  /** `[p.strip() for p in pieces if p.strip()]`, defined from the back so that
      the last piece is the one examined. */
  function Clean(pieces: seq<string>): (r: seq<string>)
    ensures |r| <= |pieces|
    ensures forall k :: 0 <= k < |r| ==> r[k] != [] && IsStripped(r[k])
  {
    if pieces == [] then []
    else
      var init := Clean(pieces[..|pieces| - 1]);
      var s := Strip(Last(pieces));
      if s != [] then init + [s] else init
  }

  /** The positions of the pieces that are not all whitespace, in order:
      by `StripEmptyIff`, those are the pieces `Clean` keeps. */
  function Origins(pieces: seq<string>): seq<nat> {
    if pieces == [] then []
    else
      var init := Origins(pieces[..|pieces| - 1]);
      if !AllSpace(Last(pieces)) then init + [|pieces| - 1] else init
  }

  lemma {:induction false} OriginsLength(pieces: seq<string>)
    ensures |Origins(pieces)| == |Clean(pieces)|
  {
    if pieces != [] {
      OriginsLength(pieces[..|pieces| - 1]);
      StripEmptyIff(Last(pieces));
    }
  }

  lemma {:induction false} OriginsBounded(pieces: seq<string>)
    ensures forall k :: 0 <= k < |Origins(pieces)| ==> Origins(pieces)[k] < |pieces|
  {
    if pieces != [] {
      OriginsBounded(pieces[..|pieces| - 1]);
    }
  }

  lemma {:induction false} OriginsIncreasing(pieces: seq<string>)
    ensures forall k, l :: 0 <= k < l < |Origins(pieces)| ==> Origins(pieces)[k] < Origins(pieces)[l]
  {
    if pieces != [] {
      var n := |pieces| - 1;
      var init := pieces[..n];
      OriginsIncreasing(init);
      OriginsBounded(init);
      var o := Origins(init);
      if !AllSpace(Last(pieces)) {
        assert Origins(pieces) == o + [n];
      } else {
        assert Origins(pieces) == o;
      }
    }
  }

  /** Each kept line is the stripped form of the piece its origin points at. */
  lemma CleanAtOrigins(pieces: seq<string>)
    ensures |Origins(pieces)| == |Clean(pieces)|
    ensures forall k :: 0 <= k < |Origins(pieces)| ==>
              Origins(pieces)[k] < |pieces| && Clean(pieces)[k] == Strip(pieces[Origins(pieces)[k]])
  {
    OriginsLength(pieces);
    forall k | 0 <= k < |Origins(pieces)|
      ensures Origins(pieces)[k] < |pieces| && Clean(pieces)[k] == Strip(pieces[Origins(pieces)[k]])
    {
      CleanAt(pieces, k);
    }
  }

  lemma {:induction false} CleanAt(pieces: seq<string>, k: nat)
    requires k < |Origins(pieces)|
    ensures k < |Clean(pieces)| && Origins(pieces)[k] < |pieces|
    ensures Clean(pieces)[k] == Strip(pieces[Origins(pieces)[k]])
  {
    var n := |pieces| - 1;
    var init := pieces[..n];
    OriginsLength(pieces);
    OriginsLength(init);
    StripEmptyIff(pieces[n]);
    var o, r := Origins(init), Clean(init);
    var last := Strip(pieces[n]);
    if k < |o| {
      CleanAt(init, k);
      assert Origins(pieces)[k] == o[k] && Clean(pieces)[k] == r[k];
      assert pieces[o[k]] == init[o[k]];
    } else {
      assert Origins(pieces) == o + [n] && Clean(pieces) == r + [last];
    }
  }

  lemma OriginsComplete(pieces: seq<string>)
    ensures forall j :: 0 <= j < |pieces| && !AllSpace(pieces[j]) ==> j in Origins(pieces)
  {
    forall j | 0 <= j < |pieces| && !AllSpace(pieces[j])
      ensures j in Origins(pieces)
    {
      OriginOf(pieces, j);
    }
  }

  lemma {:induction false} OriginOf(pieces: seq<string>, j: nat)
    requires j < |pieces| && !AllSpace(pieces[j])
    ensures j in Origins(pieces)
  {
    var n := |pieces| - 1;
    OriginsExtend(pieces);
    if j < n {
      assert pieces[..n][j] == pieces[j];
      OriginOf(pieces[..n], j);
    }
  }

  /** One more piece keeps every earlier origin, and adds itself when it survives. */
  lemma OriginsExtend(pieces: seq<string>)
    requires pieces != []
    ensures forall x :: x in Origins(pieces[..|pieces| - 1]) ==> x in Origins(pieces)
    ensures !AllSpace(pieces[|pieces| - 1]) ==> |pieces| - 1 in Origins(pieces)
  {
    var n := |pieces| - 1;
    var o := Origins(pieces[..n]);
    if !AllSpace(Last(pieces)) {
      assert Origins(pieces) == o + [n];
    } else {
      assert Origins(pieces) == o;
    }
  }

  /** The line sequence the extractor works on (source lines 23-24). */
  function Lines(pages: seq<string>): (r: seq<string>)
    ensures forall k :: 0 <= k < |r| ==> r[k] != [] && IsStripped(r[k])
  {
    Clean(Split(PageText(pages), "\n"))
  }

  /** Every line is the stripped form of a newline-separated piece of the
      joined page text, the pieces rejoin to that text, and no line holds a
      newline. */
  lemma LinesFromPieces(pages: seq<string>)
    ensures var pieces, r := Split(PageText(pages), "\n"), Lines(pages);
            Join(pieces, "\n") == PageText(pages)
            && (forall k :: 0 <= k < |r| ==> exists j :: 0 <= j < |pieces| && r[k] == Strip(pieces[j]))
            && forall k :: 0 <= k < |r| ==> !Contains(r[k], "\n")
  {
    var pieces := Split(PageText(pages), "\n");
    SplitJoin(PageText(pages), "\n");
    CleanAtOrigins(pieces);
    var o := Origins(pieces);
    forall k | 0 <= k < |Lines(pages)|
      ensures exists j :: 0 <= j < |pieces| && Lines(pages)[k] == Strip(pieces[j])
      ensures !Contains(Lines(pages)[k], "\n")
    {
      var piece := pieces[o[k]];
      assert Lines(pages)[k] == Strip(piece);
      StripHasNoNewSep(piece, "\n");
    }
  }

  /** Stripping a piece cannot bring in a separator it did not hold. */
  lemma StripHasNoNewSep(piece: string, sep: string)
    requires !Contains(piece, sep)
    ensures !Contains(Strip(piece), sep)
  {
    var a, b := StripRemovesOnlyOuterSpace(piece);
    if Contains(Strip(piece), sep) {
      ContainsInMiddle(a, Strip(piece), b, sep);
    }
  }

  /** There is one line per piece that is not all whitespace: distinct lines
      come from distinct pieces and no such piece is lost. */
  lemma LinesCount(pages: seq<string>)
    ensures |Lines(pages)| == |NonBlank(Split(PageText(pages), "\n"))|
  {
    CleanCount(Split(PageText(pages), "\n"));
  }

  /** The positions of the pieces that are not all whitespace. */
  function NonBlank(pieces: seq<string>): set<nat> {
    set j | 0 <= j < |pieces| && !AllSpace(pieces[j])
  }

  lemma CleanCount(pieces: seq<string>)
    ensures |Clean(pieces)| == |NonBlank(pieces)|
  {
    OriginsLength(pieces);
    OriginsIncreasing(pieces);
    OriginsComplete(pieces);
    OriginsKept(pieces);
    var o := Origins(pieces);
    var hit := set k | 0 <= k < |o| :: o[k];
    assert NonBlank(pieces) == hit;
    DistinctCard(o);
  }

  /** Every origin points at a piece that is not all whitespace. */
  lemma {:induction false} OriginsKept(pieces: seq<string>)
    ensures forall k :: 0 <= k < |Origins(pieces)| ==>
              Origins(pieces)[k] < |pieces| && !AllSpace(pieces[Origins(pieces)[k]])
  {
    if pieces != [] {
      var n := |pieces| - 1;
      var init := pieces[..n];
      OriginsKept(init);
      var o := Origins(init);
      var all := if !AllSpace(Last(pieces)) then o + [n] else o;
      assert Origins(pieces) == all;
      forall k | 0 <= k < |all|
        ensures all[k] < |pieces| && !AllSpace(pieces[all[k]])
      {
        if k < |o| {
          assert all[k] == o[k] && pieces[o[k]] == init[o[k]];
        }
      }
    }
  }

  /** A strictly increasing sequence has as many elements as its set. */
  lemma {:induction false} DistinctCard(o: seq<nat>)
    requires forall k, l :: 0 <= k < l < |o| ==> o[k] < o[l]
    ensures |set k | 0 <= k < |o| :: o[k]| == |o|
  {
    if o != [] {
      var init := o[..|o| - 1];
      DistinctCard(init);
      var s := set k | 0 <= k < |o| :: o[k];
      var t := set k | 0 <= k < |init| :: init[k];
      assert s == t + {o[|o| - 1]};
      assert o[|o| - 1] !in t;
    }
  }
}
