/** The catalog records of types/course.ts: a course holds ordered sections,
    a section holds ordered videos.  All of them are immutable values. */
module CourseTypes {
  import opened Options

  datatype Video = Video(
    id: string,
    title: string,
    youtubeVideoId: string,
    description: Option<string>)

  datatype Section = Section(
    id: string,
    name: string,
    videos: seq<Video>)

  datatype Course = Course(
    id: string,
    title: string,
    description: string,
    thumbnailUrl: string,
    sections: seq<Section>)

  /** The section-major, video-minor flattening of a list of sections: the
      course's linear play order. */
  function Flatten(sections: seq<Section>): (vs: seq<Video>)
  {
    if sections == [] then []
    else Flatten(sections[..|sections| - 1]) + sections[|sections| - 1].videos
  }

  /** Flattening distributes over concatenation of section lists. */
  lemma {:induction false} FlattenAppend(a: seq<Section>, b: seq<Section>)
    ensures Flatten(a + b) == Flatten(a) + Flatten(b)
    decreases |b|
  {
    if b == [] {
      assert a + b == a;
    } else {
      var b' := b[..|b| - 1];
      assert (a + b)[..|a + b| - 1] == a + b';
      assert (a + b)[|a + b| - 1] == b[|b| - 1];
      FlattenAppend(a, b');
    }
  }

  /** Every video of every section appears in the flattening, and nothing else does. */
  lemma {:induction false} FlattenContains(sections: seq<Section>, v: Video)
    ensures v in Flatten(sections) <==> exists i :: 0 <= i < |sections| && v in sections[i].videos
    decreases |sections|
  {
    if sections != [] {
      var init := sections[..|sections| - 1];
      FlattenContains(init, v);
      assert forall i :: 0 <= i < |init| ==> init[i] == sections[i];
    }
  }

  /** The flattening of one section is its videos. */
  lemma FlattenSingle(s: Section)
    ensures Flatten([s]) == s.videos
  {
    assert [s][..0] == [];
  }

  /** Video j of section i sits in the flattening after the videos of the
      sections before i. */
  lemma FlattenIndex(sections: seq<Section>, i: nat, j: nat)
    requires i < |sections| && j < |sections[i].videos|
    ensures |Flatten(sections[..i])| + j < |Flatten(sections)|
    ensures Flatten(sections)[|Flatten(sections[..i])| + j] == sections[i].videos[j]
  {
    assert sections == sections[..i] + ([sections[i]] + sections[i + 1..]);
    FlattenAppend(sections[..i], [sections[i]] + sections[i + 1..]);
    FlattenAppend([sections[i]], sections[i + 1..]);
    FlattenSingle(sections[i]);
  }

  /** Positions of videos of later sections come after all of an earlier section's videos. */
  lemma FlattenOffsetGrows(sections: seq<Section>, i1: nat, i2: nat)
    requires i1 < i2 <= |sections|
    ensures |Flatten(sections[..i1])| + |sections[i1].videos| <= |Flatten(sections[..i2])|
  {
    assert sections[..i2] == sections[..i1] + [sections[i1]] + sections[i1 + 1..i2];
    FlattenAppend(sections[..i1] + [sections[i1]], sections[i1 + 1..i2]);
    FlattenAppend(sections[..i1], [sections[i1]]);
    FlattenSingle(sections[i1]);
  }

  /** Video ids are assumed unique within a course's play order. */
  ghost predicate UniqueVideoIds(sections: seq<Section>)
  {
    var vs := Flatten(sections);
    forall p, q :: 0 <= p < q < |vs| ==> vs[p].id != vs[q].id
  }

  /** Under that invariant an id names at most one (section, position) pair. */
  lemma UniqueIdsLocate(sections: seq<Section>, i1: nat, j1: nat, i2: nat, j2: nat)
    requires UniqueVideoIds(sections)
    requires i1 < |sections| && j1 < |sections[i1].videos|
    requires i2 < |sections| && j2 < |sections[i2].videos|
    requires sections[i1].videos[j1].id == sections[i2].videos[j2].id
    ensures i1 == i2 && j1 == j2
  {
    FlattenIndex(sections, i1, j1);
    FlattenIndex(sections, i2, j2);
    if i1 < i2 {
      FlattenOffsetGrows(sections, i1, i2);
    } else if i2 < i1 {
      FlattenOffsetGrows(sections, i2, i1);
    }
  }
}
