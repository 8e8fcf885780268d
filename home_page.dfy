/** app/page.tsx: catalog-wide totals, the featured course and the course grid. */
module HomePage {
  import opened Options
  import opened CourseTypes
  import CourseCard
  import Catalog

  /** `courses.reduce((sum, course) => sum + course.sections.length, 0)`. */
  function TotalSections(courses: seq<Course>): (n: nat)
    ensures n == 0 <==> forall i :: 0 <= i < |courses| ==> courses[i].sections == []
  {
    if courses == [] then 0
    else TotalSections(courses[..|courses| - 1]) + |courses[|courses| - 1].sections|
  }

  /** The nested reduce: the sum over courses of each course's video total,
      whose inner reduce is the one CourseCard computes. */
  function TotalVideos(courses: seq<Course>): (n: nat)
    ensures n == 0 <==> forall i, j :: 0 <= i < |courses| && 0 <= j < |courses[i].sections| ==>
                                         courses[i].sections[j].videos == []
  {
    if courses == [] then 0
    else TotalVideos(courses[..|courses| - 1]) + CourseCard.TotalVideos(courses[|courses| - 1].sections)
  }

  /** Every section of the catalog, course by course. */
  function AllSections(courses: seq<Course>): (ss: seq<Section>)
  {
    if courses == [] then []
    else AllSections(courses[..|courses| - 1]) + courses[|courses| - 1].sections
  }

  /** The section total counts every section of the catalog. */
  lemma {:induction false} TotalSectionsIsLength(courses: seq<Course>)
    ensures TotalSections(courses) == |AllSections(courses)|
    decreases |courses|
  {
    if courses != [] {
      TotalSectionsIsLength(courses[..|courses| - 1]);
    }
  }

  /** The video total is the video total of all the catalog's sections taken together. */
  lemma {:induction false} TotalVideosOfAllSections(courses: seq<Course>)
    ensures TotalVideos(courses) == CourseCard.TotalVideos(AllSections(courses))
    decreases |courses|
  {
    if courses != [] {
      var init := courses[..|courses| - 1];
      TotalVideosOfAllSections(init);
      CourseCard.TotalVideosAppend(AllSections(init), courses[|courses| - 1].sections);
    }
  }

  /** Both totals are additive over concatenating catalogs. */
  lemma {:induction false} TotalsAppend(a: seq<Course>, b: seq<Course>)
    ensures TotalSections(a + b) == TotalSections(a) + TotalSections(b)
    ensures TotalVideos(a + b) == TotalVideos(a) + TotalVideos(b)
    decreases |b|
  {
    if b == [] {
      assert a + b == a;
    } else {
      var b' := b[..|b| - 1];
      assert (a + b)[..|a + b| - 1] == a + b';
      assert (a + b)[|a + b| - 1] == b[|b| - 1];
      TotalsAppend(a, b');
    }
  }

  /** Appending one course adds exactly its own counts. */
  lemma TotalsAppendCourse(courses: seq<Course>, c: Course)
    ensures TotalSections(courses + [c]) == TotalSections(courses) + |c.sections|
    ensures TotalVideos(courses + [c]) == TotalVideos(courses) + CourseCard.TotalVideos(c.sections)
  {
    TotalsAppend(courses, [c]);
    assert [c][..0] == [];
  }

  /** Each course's counts are part of the catalog's. */
  lemma {:induction false} TotalsIncludeCourse(courses: seq<Course>, i: nat)
    requires i < |courses|
    ensures |courses[i].sections| <= TotalSections(courses)
    ensures CourseCard.TotalVideos(courses[i].sections) <= TotalVideos(courses)
    decreases |courses|
  {
    if i < |courses| - 1 {
      TotalsIncludeCourse(courses[..|courses| - 1], i);
    }
  }

  /** What the home page shows. */
  datatype HomeView = HomeView(
    totalSections: nat,
    totalVideos: nat,
    highlight: Option<Course>,
    watchHref: Option<string>,
    featuredSectionCount: Option<nat>,
    featuredVideoCount: Option<nat>,
    courseCount: nat,
    showEmptyState: bool,
    cards: seq<CourseCard.CardView>)

  const WATCH_PATH_SUFFIX: string := "/watch"

  /** The "watch now" link of the featured course. */
  function WatchHref(course: Course): (href: string)
    ensures href == CourseCard.CourseHref(course) + WATCH_PATH_SUFFIX
  {
    CourseCard.COURSE_PATH_PREFIX + course.id + WATCH_PATH_SUFFIX
  }

  /** `Home()` over the catalog data. */
  function Home(data: seq<Course>): (view: HomeView)
    ensures view.totalSections == TotalSections(data) && view.totalVideos == TotalVideos(data)
    ensures view.highlight.Some? <==> |data| > 0
    ensures |data| > 0 ==> view.highlight == Some(data[0])
    ensures view.watchHref.Some? <==> |data| > 0
    ensures |data| > 0 ==> view.watchHref == Some(WatchHref(data[0]))
    ensures view.featuredVideoCount.Some? <==> |data| > 0
    ensures |data| > 0 ==> view.featuredVideoCount == Some(|Flatten(data[0].sections)|)
    ensures |data| > 0 ==> view.featuredSectionCount == Some(|data[0].sections|)
    ensures view.showEmptyState <==> |data| == 0
    ensures view.courseCount == |data|
    ensures |view.cards| == |data| && forall i :: 0 <= i < |data| ==> view.cards[i] == CourseCard.Card(data[i])
    ensures |data| > 0 ==> view.featuredVideoCount == Some(view.cards[0].videoCount)
  {
    var courses := Catalog.GetCourses(data);
    var highlight := if |courses| > 0 then Some(courses[0]) else None;
    HomeView(
      TotalSections(courses),
      TotalVideos(courses),
      highlight,
      if highlight.Some? then Some(WatchHref(highlight.value)) else None,
      if highlight.Some? then Some(|highlight.value.sections|) else None,
      if highlight.Some? then
        CourseCard.TotalVideosIsFlattenLength(highlight.value.sections);
        Some(CourseCard.TotalVideos(highlight.value.sections))
      else None,
      |courses|,
      |courses| == 0,
      seq(|courses|, i requires 0 <= i < |courses| => CourseCard.Card(courses[i])))
  }

  /** An empty catalog shows no totals, no featured course and the empty state. */
  lemma EmptyCatalog()
    ensures var v := Home([]);
      v.totalSections == 0 && v.totalVideos == 0 && v.highlight.None? && v.showEmptyState && v.cards == []
  {
  }

  /** The featured course's counts never exceed the catalog's totals. */
  lemma FeaturedWithinTotals(data: seq<Course>)
    requires |data| > 0
    ensures Home(data).featuredSectionCount.value <= Home(data).totalSections
    ensures Home(data).featuredVideoCount.value <= Home(data).totalVideos
  {
    TotalsIncludeCourse(data, 0);
  }
}
