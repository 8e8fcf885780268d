/** lib/courses.ts: the course catalog and lookup by id.  The catalog data
    (data/courses.json) is not part of this model; it is the parameter `data`. */
module Catalog {
  import opened Options
  import opened CourseTypes

  /** `getCourses()`: the catalog records themselves, in their stored order. */
  function GetCourses(data: seq<Course>): (courses: seq<Course>)
    ensures |courses| == |data|
    ensures forall i :: 0 <= i < |data| ==> courses[i] == data[i]
  {
    data
  }

  /** `courses.find(course => course.id === id) || null`. */
  function Find(courses: seq<Course>, id: string): (r: Option<Course>)
    ensures r.None? <==> forall i :: 0 <= i < |courses| ==> courses[i].id != id
    ensures r.Some? ==> r.value.id == id && r.value in courses
  {
    if courses == [] then None
    else if courses[0].id == id then Some(courses[0])
    else Find(courses[1..], id)
  }

  /** `getCourseById(id)`: null exactly when no course has the id; otherwise a
      catalog course with that id. */
  function GetCourseById(data: seq<Course>, id: string): (r: Option<Course>)
    ensures r.None? <==> forall i :: 0 <= i < |data| ==> data[i].id != id
    ensures r.Some? ==> r.value.id == id && r.value in data
  {
    Find(GetCourses(data), id)
  }

  /** When several courses share an id, the first of them in catalog order is returned. */
  lemma {:induction false} FindFirst(courses: seq<Course>, id: string, i: nat)
    requires i < |courses| && courses[i].id == id
    requires forall j :: 0 <= j < i ==> courses[j].id != id
    ensures Find(courses, id) == Some(courses[i])
    decreases i
  {
    if i > 0 {
      FindFirst(courses[1..], id, i - 1);
    }
  }

  /** The same for `getCourseById`. */
  lemma GetCourseByIdFirst(data: seq<Course>, id: string, i: nat)
    requires i < |data| && data[i].id == id
    requires forall j :: 0 <= j < i ==> data[j].id != id
    ensures GetCourseById(data, id) == Some(data[i])
  {
    FindFirst(GetCourses(data), id, i);
  }
}
