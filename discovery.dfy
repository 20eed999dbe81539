/**
 * Iframe discovery (`getYoutubePlayers`): scan the page's iframes in
 * document order and collect the ids of those whose `src` is a YouTube URL.
 * The page is given as the sequence of its iframes instead of being read
 * from the DOM.
 */
module Discovery {
  import opened Wrappers
  import opened YouTubeUrl

  /** An `<iframe>` element as discovery sees it: its `src` and its `id` (empty when absent). */
  datatype Iframe = Iframe(src: string, id: string)

  /** An iframe contributes its id when its `src` is a YouTube URL and its id is not empty. */
  predicate Contributes(frame: Iframe)
  {
    IsYouTubeUrl(frame.src) && frame.id != ""
  }

  /** The ids `getYoutubePlayers` collects from `frames`, in document order. */
  function MatchingIds(frames: seq<Iframe>): seq<string>
  {
    if frames == [] then []
    else
      var last := frames[|frames| - 1];
      MatchingIds(frames[..|frames| - 1]) + (if Contributes(last) then [last.id] else [])
  }

  /** The positions of the contributing iframes, in document order (reference definition). */
  function ContributingIndices(frames: seq<Iframe>): (r: seq<nat>)
    ensures forall k :: 0 <= k < |r| ==> r[k] < |frames|
  {
    if frames == [] then []
    else
      var n := |frames| - 1;
      ContributingIndices(frames[..n]) + (if Contributes(frames[n]) then [n] else [])
  }

  /**
   * Search the page for YouTube iframes: `None` (the source's `null`) when the
   * page has no iframe at all, otherwise the ids of the matching iframes,
   * possibly none. A matching iframe without an id is skipped; no id is
   * generated for it.
   */
  method GetYoutubePlayers(elems: seq<Iframe>) returns (r: Option<seq<string>>)
    ensures r.None? <==> |elems| == 0
    ensures r.Some? ==> r.value == MatchingIds(elems)
  {
    var idsArr: seq<string> := [];
    if |elems| == 0 {
      return None;
    }
    for i := 0 to |elems|
      invariant idsArr == MatchingIds(elems[..i])
    {
      assert elems[..i + 1][..i] == elems[..i];
      if IsYouTubeUrl(elems[i].src) {
        if elems[i].id != "" {
          idsArr := idsArr + [elems[i].id];
        }
      }
    }
    assert elems[..|elems|] == elems;
    return Some(idsArr);
  }

  /** Discovery over a page split in two is discovery over each part, concatenated. */
  lemma {:induction false} MatchingIdsAppend(a: seq<Iframe>, b: seq<Iframe>)
    ensures MatchingIds(a + b) == MatchingIds(a) + MatchingIds(b)
  {
    if b == [] {
      assert a + b == a;
    } else {
      var n := |b| - 1;
      assert (a + b)[..|a + b| - 1] == a + b[..n];
      MatchingIdsAppend(a, b[..n]);
    }
  }

  /**
   * The collected ids are exactly the ids of the contributing iframes, taken
   * in increasing document position: each contributing iframe adds its id
   * once, and no other iframe adds anything.
   */
  lemma {:induction false} MatchingIdsByIndex(frames: seq<Iframe>)
    ensures |MatchingIds(frames)| == |ContributingIndices(frames)|
    ensures forall k :: 0 <= k < |MatchingIds(frames)| ==>
              MatchingIds(frames)[k] == frames[ContributingIndices(frames)[k]].id
  {
    if frames != [] {
      var n := |frames| - 1;
      MatchingIdsByIndex(frames[..n]);
    }
  }

  /** A position is listed exactly when its iframe contributes, and positions strictly increase. */
  lemma {:induction false} ContributingIndicesExact(frames: seq<Iframe>)
    ensures forall i :: i in ContributingIndices(frames) <==> 0 <= i < |frames| && Contributes(frames[i])
    ensures forall j, k :: 0 <= j < k < |ContributingIndices(frames)| ==>
              ContributingIndices(frames)[j] < ContributingIndices(frames)[k]
  {
    if frames != [] {
      var n := |frames| - 1;
      ContributingIndicesExact(frames[..n]);
    }
  }

  /** Every collected id is non-empty and belongs to an iframe whose `src` is a YouTube URL. */
  lemma MatchingIdsSound(frames: seq<Iframe>, id: string)
    requires id in MatchingIds(frames)
    ensures id != ""
    ensures exists i :: 0 <= i < |frames| && IsYouTubeUrl(frames[i].src) && frames[i].id == id
  {
    MatchingIdsByIndex(frames);
    ContributingIndicesExact(frames);
    var k :| 0 <= k < |MatchingIds(frames)| && MatchingIds(frames)[k] == id;
    var i := ContributingIndices(frames)[k];
    assert i in ContributingIndices(frames);
  }

  /** A YouTube iframe without an id contributes nothing: removing it changes no result. */
  lemma {:induction false} EmptyIdContributesNothing(frames: seq<Iframe>, i: nat)
    requires i < |frames| && frames[i].id == ""
    ensures MatchingIds(frames) == MatchingIds(frames[..i] + frames[i + 1..])
  {
    var before, after := frames[..i], frames[i + 1..];
    var single := [frames[i]];
    assert frames == (before + single) + after;
    assert single[..0] == [];
    assert MatchingIds(single) == [];
    MatchingIdsAppend(before + single, after);
    MatchingIdsAppend(before, single);
    MatchingIdsAppend(before, after);
  }
}
