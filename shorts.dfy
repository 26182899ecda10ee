/**
 * The short-video feed (`Shorts`): which short is active, the per-short like
 * flags, and the embed URL of each short. The observer that reports a short
 * scrolled into view passes its `data-id` attribute, which is always text.
 */
module ShortsFeed {
  import opened Text
  import opened Catalog

  /** `likedShorts`: object keys are the ids' text. */
  type Likes = map<string, bool>

  /** `likedShorts[id]` is truthy; a missing key is `undefined`. */
  predicate IsLiked(likes: Likes, id: Id) {
    IdText(id) in likes && likes[IdText(id)]
  }

  /** `toggleLike(id)`: `{ ...prev, [id]: !prev[id] }` */
  function ToggleLike(likes: Likes, id: Id): Likes {
    likes[IdText(id) := !IsLiked(likes, id)]
  }

  /** The toggle flips that short's flag, and every other key keeps its
      presence and its value. */
  lemma ToggleLikeSpec(likes: Likes, id: Id)
    ensures IsLiked(ToggleLike(likes, id), id) <==> !IsLiked(likes, id)
    ensures IdText(id) in ToggleLike(likes, id)
    ensures forall k :: k != IdText(id) ==> (k in ToggleLike(likes, id) <==> k in likes)
    ensures forall k :: k != IdText(id) && k in likes ==> ToggleLike(likes, id)[k] == likes[k]
  {
  }

  /** Two toggles restore whether the short is liked; an un-liked short is
      left with an explicit `false`. */
  lemma ToggleTwice(likes: Likes, id: Id)
    ensures IsLiked(ToggleLike(ToggleLike(likes, id), id), id) == IsLiked(likes, id)
    ensures !IsLiked(likes, id) ==> ToggleLike(ToggleLike(likes, id), id)[IdText(id)] == false
  {
  }

  /** Keys are text, so a number id and a string id with the same digits
      share one flag. */
  lemma SameTextSameFlag(likes: Likes)
    ensures IsLiked(ToggleLike(likes, Num(3)), Str("3")) <==> !IsLiked(likes, Str("3"))
  {
    assert IdText(Num(3)) == "3" by {
      assert NatToString(3) == [DigitChar(3)];
    }
  }

  /** The like count shown beside the heart. */
  function LikeCount(liked: bool): (r: nat)
    ensures liked ==> r == 1432
    ensures !liked ==> r == 1431
  {
    if liked then 1432 else 1431
  }

  /** The shown count follows the heart: liking adds exactly one, taking
      the like back removes exactly one, and two toggles show the count
      again. */
  lemma LikeAddsOne(likes: Likes, id: Id)
    ensures !IsLiked(likes, id) ==> LikeCount(IsLiked(ToggleLike(likes, id), id)) == LikeCount(IsLiked(likes, id)) + 1
    ensures IsLiked(likes, id) ==> LikeCount(IsLiked(ToggleLike(likes, id), id)) + 1 == LikeCount(IsLiked(likes, id))
    ensures LikeCount(IsLiked(ToggleLike(ToggleLike(likes, id), id), id)) == LikeCount(IsLiked(likes, id))
  {
  }

  const EmbedTail: string := "&modestbranding=1&rel=0"

  /** The query up to the loop flag, with autoplay on or off. */
  function EmbedHead(url: string, autoplay: bool): string {
    url + "?autoplay=" + (if autoplay then "1" else "0") + "&mute=0&controls=0&loop=1"
  }

  /** The playlist parameter, which makes the single video loop. */
  function PlaylistParam(url: string): string {
    "&playlist=" + LastSegment(url, '/') + EmbedTail
  }

  /** The iframe's `src` for a short. */
  function EmbedUrl(s: Short, active: bool, playing: bool): string {
    EmbedHead(s.videoUrl, active && playing) + PlaylistParam(s.videoUrl)
  }

  /** The URL starts with the video URL, and its autoplay digit is 1
      exactly for the active short while playing. */
  lemma EmbedAutoplay(s: Short, active: bool, playing: bool)
    ensures var u := EmbedUrl(s, active, playing);
      StartsWith(u, s.videoUrl + "?autoplay=") &&
      |u| > |s.videoUrl| + 10 && (u[|s.videoUrl| + 10] == '1' <==> active && playing)
  {
    var head := EmbedHead(s.videoUrl, active && playing);
    var digit := if active && playing then "1" else "0";
    assert head == (s.videoUrl + "?autoplay=") + (digit + "&mute=0&controls=0&loop=1");
    assert head[|s.videoUrl| + 10] == digit[0];
  }

  /** The URL ends with the loop playlist of the video's last path segment,
      which holds no slash. */
  lemma EmbedPlaylist(s: Short, active: bool, playing: bool)
    ensures var u := EmbedUrl(s, active, playing);
      var seg := LastSegment(s.videoUrl, '/');
      |u| >= |seg| + |EmbedTail| + 10 &&
      u[|u| - |seg| - |EmbedTail| - 10..] == "&playlist=" + seg + EmbedTail
    ensures '/' !in LastSegment(s.videoUrl, '/')
  {
    LastSegmentShape(s.videoUrl, '/');
    var head := EmbedHead(s.videoUrl, active && playing);
    assert EmbedUrl(s, active, playing)[|head|..] == PlaylistParam(s.videoUrl);
  }

  /** The video id at the end of an embed path goes into the playlist
      parameter. */
  lemma EmbedPlaylistExample()
    ensures LastSegment("embed/ab", '/') == "ab"
  {
    assert "embed/ab"[..7] == "embed/a";
    assert "embed/a"[..6] == "embed/";
    assert LastSegment("embed/", '/') == "";
    assert LastSegment("embed/a", '/') == "a";
  }

  datatype Feed = Feed(activeShortId: Option<Id>, isPlaying: bool, likedShorts: Likes)

  /** The first render: the first short is active (`undefined` for an empty
      feed), playing, with nothing liked. */
  function InitialFeed(shorts: seq<Short>): (r: Feed)
    ensures |shorts| > 0 ==> r.activeShortId == Some(shorts[0].id)
    ensures |shorts| == 0 ==> r.activeShortId.None?
    ensures r.isPlaying && r.likedShorts == map[]
  {
    Feed(if |shorts| > 0 then Some(shorts[0].id) else None, true, map[])
  }

  /** `activeShortId === short.id` */
  predicate IsActive(f: Feed, s: Short) {
    f.activeShortId == Some(s.id)
  }

  /** The observer reporting that the short with this `data-id` is in view. */
  function Seen(f: Feed, dataId: string): Feed {
    f.(activeShortId := Some(Str(dataId)), isPlaying := true)
  }

  /** At first exactly the shorts sharing the first short's id are active,
      and for an empty feed none is. */
  lemma InitialActive(shorts: seq<Short>, s: Short)
    ensures |shorts| > 0 ==> (IsActive(InitialFeed(shorts), s) <==> s.id == shorts[0].id)
    ensures |shorts| == 0 ==> !IsActive(InitialFeed(shorts), s)
  {
  }

  /** Scrolling to a short with a text id makes it the active one and plays
      it; one with a number id is never active afterwards, because the
      attribute is text and the comparison is strict. */
  lemma SeenActivates(f: Feed, s: Short)
    ensures s.id.Str? ==> IsActive(Seen(f, IdText(s.id)), s) && Seen(f, IdText(s.id)).isPlaying
    ensures s.id.Num? ==> forall t: Short :: t.id.Num? ==> !IsActive(Seen(f, IdText(s.id)), t)
  {
  }

  /** The feed page; `isPlaying` starts true and only the observer sets it,
      to true. */
  class ShortsPage {
    const shorts: seq<Short>
    var activeShortId: Option<Id>
    var isPlaying: bool
    var likedShorts: Likes

    function State(): Feed
      reads this
    {
      Feed(activeShortId, isPlaying, likedShorts)
    }

    constructor (shorts: seq<Short>)
      ensures this.shorts == shorts && State() == InitialFeed(shorts)
    {
      this.shorts := shorts;
      activeShortId := if |shorts| > 0 then Some(shorts[0].id) else None;
      isPlaying := true;
      likedShorts := map[];
    }

    method HandleToggleLike(id: Id)
      modifies this
      ensures State() == old(State()).(likedShorts := ToggleLike(old(likedShorts), id))
    {
      likedShorts := likedShorts[IdText(id) := !IsLiked(likedShorts, id)];
    }

    method HandleIntersection(dataId: string)
      modifies this
      ensures State() == Seen(old(State()), dataId)
    {
      activeShortId := Some(Str(dataId));
      isPlaying := true;
    }

    /** The `src` of the iframe of the `i`-th short. */
    function Src(i: nat): (r: string)
      requires i < |shorts|
      reads this
      ensures r == EmbedUrl(shorts[i], IsActive(State(), shorts[i]), isPlaying)
    {
      EmbedUrl(shorts[i], activeShortId == Some(shorts[i].id), isPlaying)
    }
  }
}
