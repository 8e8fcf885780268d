/** components/VideoList.tsx: for each section, how many of its videos are
    watched and the rounded percentage; for each video, its watched and
    current flags. */
module VideoList {
  import opened Options
  import opened CourseTypes
  import Percent

  /** `section.videos.filter(v => watchedVideos.has(v.id)).length`. */
  function WatchedCount(videos: seq<Video>, watched: set<string>): (n: nat)
    ensures n <= |videos|
  {
    if videos == [] then 0
    else WatchedCount(videos[..|videos| - 1], watched) + (if videos[|videos| - 1].id in watched then 1 else 0)
  }

  /** The positions of the watched videos. */
  function WatchedPositions(videos: seq<Video>, watched: set<string>): (ps: set<nat>)
  {
    set i: nat | i < |videos| && videos[i].id in watched
  }

  /** The count is the number of positions whose video is watched. */
  lemma {:induction false} WatchedCountPositions(videos: seq<Video>, watched: set<string>)
    ensures WatchedCount(videos, watched) == |WatchedPositions(videos, watched)|
    decreases |videos|
  {
    if videos != [] {
      var init := videos[..|videos| - 1];
      var last := |videos| - 1;
      WatchedCountPositions(init, watched);
      if videos[last].id in watched {
        assert WatchedPositions(videos, watched) == WatchedPositions(init, watched) + {last};
      } else {
        assert WatchedPositions(videos, watched) == WatchedPositions(init, watched);
      }
    }
  }

  /** Every video is watched exactly when the count is the section's length. */
  lemma {:induction false} WatchedCountAll(videos: seq<Video>, watched: set<string>)
    ensures WatchedCount(videos, watched) == |videos| <==> forall i :: 0 <= i < |videos| ==> videos[i].id in watched
    decreases |videos|
  {
    if videos != [] {
      var init := videos[..|videos| - 1];
      WatchedCountAll(init, watched);
      assert forall i :: 0 <= i < |init| ==> init[i] == videos[i];
    }
  }

  /** No video is watched exactly when the count is 0. */
  lemma {:induction false} WatchedCountNone(videos: seq<Video>, watched: set<string>)
    ensures WatchedCount(videos, watched) == 0 <==> forall i :: 0 <= i < |videos| ==> videos[i].id !in watched
    decreases |videos|
  {
    if videos != [] {
      var init := videos[..|videos| - 1];
      WatchedCountNone(init, watched);
      assert forall i :: 0 <= i < |init| ==> init[i] == videos[i];
    }
  }

  /** Watching more ids never lowers a section's count. */
  lemma {:induction false} WatchedCountMonotone(videos: seq<Video>, w1: set<string>, w2: set<string>)
    requires w1 <= w2
    ensures WatchedCount(videos, w1) <= WatchedCount(videos, w2)
    decreases |videos|
  {
    if videos != [] {
      WatchedCountMonotone(videos[..|videos| - 1], w1, w2);
    }
  }

  /** `sectionProgress`: 0 for a section without videos, else the watched
      count as a rounded percentage of the section's length. */
  function SectionProgress(section: Section, watched: set<string>): (p: nat)
    ensures p <= 100
    ensures |section.videos| == 0 ==> p == 0
    ensures |section.videos| > 0 ==>
      var n, t := WatchedCount(section.videos, watched), |section.videos|;
      2 * t * p <= 200 * n + t < 2 * t * (p + 1)
  {
    var n, t := WatchedCount(section.videos, watched), |section.videos|;
    if t > 0 then
      Percent.RoundedPercentAtMost100(n, t);
      Percent.RoundedPercent(n, t)
    else 0
  }

  /** A fully watched section shows 100 %, an unwatched one 0 %. */
  lemma SectionProgressEnds(section: Section, watched: set<string>)
    ensures |section.videos| > 0 && (forall i :: 0 <= i < |section.videos| ==> section.videos[i].id in watched) ==>
      SectionProgress(section, watched) == 100
    ensures (forall i :: 0 <= i < |section.videos| ==> section.videos[i].id !in watched) ==>
      SectionProgress(section, watched) == 0
  {
    var t := |section.videos|;
    WatchedCountAll(section.videos, watched);
    WatchedCountNone(section.videos, watched);
    if t > 0 {
      Percent.RoundedPercentFull(t);
      Percent.RoundedPercentZero(t);
    }
  }

  /** Watching more ids never lowers a section's percentage. */
  lemma SectionProgressMonotone(section: Section, w1: set<string>, w2: set<string>)
    requires w1 <= w2
    ensures SectionProgress(section, w1) <= SectionProgress(section, w2)
  {
    WatchedCountMonotone(section.videos, w1, w2);
    if |section.videos| > 0 {
      Percent.RoundedPercentMonotone(WatchedCount(section.videos, w1), WatchedCount(section.videos, w2), |section.videos|);
    }
  }

  /** One list entry: the video with its check mark and highlight. */
  datatype VideoRow = VideoRow(video: Video, isWatched: bool, isCurrent: bool)

  /** The header and entries drawn for one section. */
  datatype SectionView = SectionView(section: Section, watchedCount: nat, progress: nat, rows: seq<VideoRow>)

  function Row(video: Video, currentVideoId: string, watched: set<string>): (row: VideoRow)
  {
    VideoRow(video, video.id in watched, currentVideoId == video.id)
  }

  function RenderSection(section: Section, currentVideoId: string, watched: set<string>): (view: SectionView)
  {
    var vs := section.videos;
    SectionView(section, WatchedCount(vs, watched), SectionProgress(section, watched),
                seq(|vs|, i requires 0 <= i < |vs| => Row(vs[i], currentVideoId, watched)))
  }

  /** `VideoList({sections, currentVideoId, watchedVideos})`, where an absent
      `watchedVideos` defaults to the empty set. */
  function Render(sections: seq<Section>, currentVideoId: string, watchedVideos: Option<set<string>>): (views: seq<SectionView>)
    ensures |views| == |sections|
    ensures forall i :: 0 <= i < |sections| ==>
      var v := views[i];
      && v.section == sections[i]
      && v.watchedCount == WatchedCount(sections[i].videos, watchedVideos.GetOr({}))
      && v.watchedCount <= |sections[i].videos|
      && v.progress == SectionProgress(sections[i], watchedVideos.GetOr({}))
      && v.progress <= 100
      && |v.rows| == |sections[i].videos|
      && forall j :: 0 <= j < |v.rows| ==>
           && v.rows[j].video == sections[i].videos[j]
           && (v.rows[j].isWatched <==> watchedVideos.Some? && sections[i].videos[j].id in watchedVideos.value)
           && (v.rows[j].isCurrent <==> sections[i].videos[j].id == currentVideoId)
  {
    var watched := watchedVideos.GetOr({});
    seq(|sections|, i requires 0 <= i < |sections| => RenderSection(sections[i], currentVideoId, watched))
  }

  /** The count in each header is the number of check marks below it. */
  lemma CountMatchesMarks(sections: seq<Section>, currentVideoId: string, watchedVideos: Option<set<string>>, i: nat)
    requires i < |sections|
    ensures var v := Render(sections, currentVideoId, watchedVideos)[i];
      v.watchedCount == |set j: nat | j < |v.rows| && v.rows[j].isWatched|
  {
    var v := Render(sections, currentVideoId, watchedVideos)[i];
    var w := watchedVideos.GetOr({});
    WatchedCountPositions(sections[i].videos, w);
    assert (set j: nat | j < |v.rows| && v.rows[j].isWatched) == WatchedPositions(sections[i].videos, w);
  }

  /** Without a watched set every count, percentage and check mark is zero or off. */
  lemma DefaultShowsNothingWatched(sections: seq<Section>, currentVideoId: string)
    ensures forall i :: 0 <= i < |sections| ==>
      var v := Render(sections, currentVideoId, None)[i];
      v.watchedCount == 0 && v.progress == 0 && forall j :: 0 <= j < |v.rows| ==> !v.rows[j].isWatched
  {
    forall i | 0 <= i < |sections|
      ensures var v := Render(sections, currentVideoId, None)[i];
        v.watchedCount == 0 && v.progress == 0
    {
      WatchedCountNone(sections[i].videos, {});
      SectionProgressEnds(sections[i], {});
    }
  }

  /** With ids unique in the course, at most one entry of the whole list is highlighted. */
  lemma AtMostOneCurrent(sections: seq<Section>, currentVideoId: string, watchedVideos: Option<set<string>>,
                         i1: nat, j1: nat, i2: nat, j2: nat)
    requires UniqueVideoIds(sections)
    requires i1 < |sections| && j1 < |sections[i1].videos|
    requires i2 < |sections| && j2 < |sections[i2].videos|
    ensures var views := Render(sections, currentVideoId, watchedVideos);
      views[i1].rows[j1].isCurrent && views[i2].rows[j2].isCurrent ==> i1 == i2 && j1 == j2
  {
    if sections[i1].videos[j1].id == currentVideoId && sections[i2].videos[j2].id == currentVideoId {
      UniqueIdsLocate(sections, i1, j1, i2, j2);
    }
  }
}
