/** components/CourseCard.tsx: a course's video total and link target. */
module CourseCard {
  import opened CourseTypes

  /** `course.sections.reduce((sum, section) => sum + section.videos.length, 0)`,
      a left fold over the sections. */
  function TotalVideos(sections: seq<Section>): (n: nat)
    ensures n == 0 <==> forall i :: 0 <= i < |sections| ==> sections[i].videos == []
  {
    if sections == [] then 0
    else TotalVideos(sections[..|sections| - 1]) + |sections[|sections| - 1].videos|
  }

  /** The total is the length of the course's play order. */
  lemma {:induction false} TotalVideosIsFlattenLength(sections: seq<Section>)
    ensures TotalVideos(sections) == |Flatten(sections)|
    decreases |sections|
  {
    if sections != [] {
      TotalVideosIsFlattenLength(sections[..|sections| - 1]);
    }
  }

  /** The total of a concatenation of section lists is the sum of their totals. */
  lemma TotalVideosAppend(a: seq<Section>, b: seq<Section>)
    ensures TotalVideos(a + b) == TotalVideos(a) + TotalVideos(b)
  {
    TotalVideosIsFlattenLength(a + b);
    TotalVideosIsFlattenLength(a);
    TotalVideosIsFlattenLength(b);
    FlattenAppend(a, b);
  }

  const COURSE_PATH_PREFIX: string := "/courses/"

  /** The card's link target: the course's detail page. */
  function CourseHref(course: Course): (href: string)
    ensures |href| == |COURSE_PATH_PREFIX| + |course.id|
    ensures href[..|COURSE_PATH_PREFIX|] == COURSE_PATH_PREFIX
    ensures href[|COURSE_PATH_PREFIX|..] == course.id
  {
    COURSE_PATH_PREFIX + course.id
  }

  /** Courses with different ids link to different pages. */
  lemma CourseHrefInjective(c1: Course, c2: Course)
    ensures CourseHref(c1) == CourseHref(c2) <==> c1.id == c2.id
  {
    if CourseHref(c1) == CourseHref(c2) {
      assert c1.id == CourseHref(c1)[|COURSE_PATH_PREFIX|..];
    }
  }

  /** What one card shows. */
  datatype CardView = CardView(
    href: string,
    title: string,
    description: string,
    thumbnailUrl: string,
    sectionCount: nat,
    videoCount: nat)

  /** `CourseCard({course})`. */
  function Card(course: Course): (card: CardView)
    ensures card.href == CourseHref(course)
    ensures card.sectionCount == |course.sections|
    ensures card.videoCount == |Flatten(course.sections)|
  {
    TotalVideosIsFlattenLength(course.sections);
    CardView(CourseHref(course), course.title, course.description, course.thumbnailUrl,
             |course.sections|, TotalVideos(course.sections))
  }
}
