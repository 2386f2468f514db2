/**
 * `bot/university/ufind_requests.py`: the select options built from the
 * courses of a u:find search. The HTTP request and the XML parsing are left
 * out; the course elements arrive as plain values.
 */
module UfindRequests {
  import opened Wrappers
  import opened Text

  /** A `lecturer` element: the texts of its name children. */
  datatype Lecturer = Lecturer(firstname: Option<string>, lastname: Option<string>)

  /** A `course` element: its `id` attribute, the texts of its children and its lecturers. */
  datatype CourseElement = CourseElement(id: Option<string>, longName: Option<string>, courseType: Option<string>,
                                         ects: Option<string>, lecturers: seq<Lecturer>)

  /** Discord's `SelectOption`, with the fields the function sets. */
  datatype SelectOption = SelectOption(optionLabel: Option<string>, value: Option<string>, description: string)

  const DescriptionLimit := 100

  // ------------------------------------------------------------ the description

  /** `f" | {firstname} {lastname}"` for each lecturer, in order. */
  function LecturerSuffix(lecturers: seq<Lecturer>): string {
    if lecturers == [] then ""
    else LecturerSuffix(lecturers[..|lecturers| - 1]) + LecturerPart(lecturers[|lecturers| - 1])
  }

  /** `f" | {firstname} {lastname}"` of one lecturer. */
  function LecturerPart(lecturer: Lecturer): string {
    " | " + Shown(lecturer.firstname) + " " + Shown(lecturer.lastname)
  }

  /** Without '|' in the names, the lecturer part has one separator per lecturer. */
  lemma {:induction false} LecturerSeparators(lecturers: seq<Lecturer>)
    requires forall k :: 0 <= k < |lecturers| ==>
      '|' !in Shown(lecturers[k].firstname) && '|' !in Shown(lecturers[k].lastname)
    ensures Count(LecturerSuffix(lecturers), '|') == |lecturers|
    decreases |lecturers|
  {
    if lecturers != [] {
      var front := lecturers[..|lecturers| - 1];
      var last := lecturers[|lecturers| - 1];
      LecturerSeparators(front);
      var first, second := Shown(last.firstname), Shown(last.lastname);
      CountAppend(LecturerSuffix(front), LecturerPart(last), '|');
      CountAppend(" | ", first, '|');
      CountAppend(" | " + first, " ", '|');
      CountAppend(" | " + first + " ", second, '|');
      CountAbsent(first, '|');
      CountAbsent(second, '|');
      assert Count(" | ", '|') == 1;
    }
  }

  lemma {:induction false} CountAbsent(s: string, c: char)
    requires c !in s
    ensures Count(s, c) == 0
    decreases |s|
  {
    if s != [] {
      CountAppend(s[..|s| - 1], [s[|s| - 1]], c);
      assert s == s[..|s| - 1] + [s[|s| - 1]];
      CountAbsent(s[..|s| - 1], c);
    }
  }

  /** The description before it is shortened: type and ECTS, then the lecturers. */
  function FullDescription(course: CourseElement): string {
    Shown(course.courseType) + " [" + Shown(course.ects) + " ECTS]" + LecturerSuffix(course.lecturers)
  }

  /** Descriptions over 100 characters keep their first 97 and get "..." appended. */
  function Shorten(description: string): (r: string)
    ensures |r| <= DescriptionLimit
    ensures |description| <= DescriptionLimit ==> r == description
    ensures |description| > DescriptionLimit ==> |r| == DescriptionLimit && r[..97] == description[..97] && EndsWith(r, "...")
  {
    if |description| <= 100 then description else description[..97] + "..."
  }

  function ToOption(course: CourseElement): SelectOption {
    SelectOption(course.longName, course.id, Shorten(FullDescription(course)))
  }

  // -------------------------------------------------------------- the dedup

  /** The course at `i` is the first with its id. */
  predicate FirstOccurrence(courses: seq<CourseElement>, i: nat)
    requires i < |courses|
  {
    forall j :: 0 <= j < i ==> courses[j].id != courses[i].id
  }

  /** The courses the loop keeps: each one whose id was not seen before, in order. */
  function Deduplicated(courses: seq<CourseElement>): (r: seq<CourseElement>)
    ensures |r| <= |courses|
  {
    if courses == [] then []
    else
      var n := |courses| - 1;
      Deduplicated(courses[..n]) + (if FirstOccurrence(courses, n) then [courses[n]] else [])
  }

  function CourseOptions(courses: seq<CourseElement>): (r: seq<SelectOption>)
    ensures |r| == |Deduplicated(courses)|
  {
    var kept := Deduplicated(courses);
    seq(|kept|, k requires 0 <= k < |kept| => ToOption(kept[k]))
  }

  /**
   * The kept courses are the first occurrences of the ids, in input order: the
   * positions they come from increase, each holds the first course with its id,
   * and every first occurrence is among them.
   */
  lemma {:induction false} DeduplicatedIsFirstOccurrences(courses: seq<CourseElement>) returns (from: seq<nat>)
    ensures |from| == |Deduplicated(courses)|
    ensures forall k :: 0 <= k < |from| ==> from[k] < |courses| && Deduplicated(courses)[k] == courses[from[k]]
    ensures forall k, l :: 0 <= k < l < |from| ==> from[k] < from[l]
    ensures forall k :: 0 <= k < |from| ==> FirstOccurrence(courses, from[k])
    ensures forall i :: 0 <= i < |courses| && FirstOccurrence(courses, i) ==> i in from
    decreases |courses|
  {
    if courses == [] {
      from := [];
    } else {
      var n := |courses| - 1;
      var front := courses[..n];
      var earlier := DeduplicatedIsFirstOccurrences(front);
      forall i | 0 <= i < n ensures FirstOccurrence(front, i) == FirstOccurrence(courses, i) {
        assert forall j :: 0 <= j < i ==> front[j] == courses[j];
      }
      var tail: seq<nat> := if FirstOccurrence(courses, n) then [n] else [];
      from := earlier + tail;
      var kept := Deduplicated(courses);
      assert kept == Deduplicated(front) + (if FirstOccurrence(courses, n) then [courses[n]] else []);
      forall k | 0 <= k < |from| ensures from[k] < |courses| && kept[k] == courses[from[k]] && FirstOccurrence(courses, from[k]) {
        if k < |earlier| {
          assert kept[k] == Deduplicated(front)[k] == front[earlier[k]];
        }
      }
      forall i | 0 <= i < |courses| && FirstOccurrence(courses, i) ensures i in from {
        if i < n {
          assert FirstOccurrence(front, i);
          assert i in earlier;
        }
      }
    }
  }

  /** No id is offered twice. */
  lemma DeduplicatedUnique(courses: seq<CourseElement>)
    ensures forall k, l :: 0 <= k < l < |Deduplicated(courses)| ==> Deduplicated(courses)[k].id != Deduplicated(courses)[l].id
  {
    var from := DeduplicatedIsFirstOccurrences(courses);
    forall k, l | 0 <= k < l < |from| ensures Deduplicated(courses)[k].id != Deduplicated(courses)[l].id {
      assert from[k] < from[l] && FirstOccurrence(courses, from[l]);
    }
  }

  /** No id is lost: every course's id is offered, by the first course carrying it. */
  lemma DeduplicatedComplete(courses: seq<CourseElement>, i: nat)
    requires i < |courses|
    ensures exists k :: 0 <= k < |Deduplicated(courses)| && Deduplicated(courses)[k].id == courses[i].id
  {
    var from := DeduplicatedIsFirstOccurrences(courses);
    var first := FirstWithId(courses, i);
    var k :| 0 <= k < |from| && from[k] == first;
    assert Deduplicated(courses)[k] == courses[first];
  }

  /** The first index whose course has the id of the course at `i`. */
  lemma {:induction false} FirstWithId(courses: seq<CourseElement>, i: nat) returns (first: nat)
    requires i < |courses|
    ensures first <= i && courses[first].id == courses[i].id && FirstOccurrence(courses, first)
    decreases i
  {
    if FirstOccurrence(courses, i) {
      first := i;
    } else {
      var j :| 0 <= j < i && courses[j].id == courses[i].id;
      first := FirstWithId(courses, j);
    }
  }

  // --------------------------------------------------------------- the loop

  /** The lecturer loop: the description grows by one " | first last" per lecturer. */
  method BuildDescription(course: CourseElement) returns (description: string)
    ensures description == Shorten(FullDescription(course))
  {
    description := Shown(course.courseType) + " [" + Shown(course.ects) + " ECTS]";
    ghost var head := description;
    var lecturers := course.lecturers;
    var k := 0;
    while k < |lecturers|
      invariant 0 <= k <= |lecturers|
      invariant description == head + LecturerSuffix(lecturers[..k])
    {
      LecturerSuffixStep(lecturers, k);
      ConcatAssoc(head, LecturerSuffix(lecturers[..k]), LecturerPart(lecturers[k]));
      description := description + LecturerPart(lecturers[k]);
      k := k + 1;
    }
    assert lecturers[..k] == lecturers;
    assert description == FullDescription(course);
    description := if |description| <= 100 then description else description[..97] + "...";
  }

  /** One more lecturer appends that lecturer's part. */
  lemma LecturerSuffixStep(lecturers: seq<Lecturer>, k: nat)
    requires k < |lecturers|
    ensures LecturerSuffix(lecturers[..k + 1]) == LecturerSuffix(lecturers[..k]) + LecturerPart(lecturers[k])
  {
    assert lecturers[..k + 1][..k] == lecturers[..k];
  }

  /** One more course adds its option exactly when its id was not seen yet. */
  lemma CourseOptionsStep(courses: seq<CourseElement>, i: nat)
    requires i < |courses|
    ensures var seen := set j | 0 <= j < i :: courses[j].id;
      CourseOptions(courses[..i + 1]) ==
        CourseOptions(courses[..i]) + (if courses[i].id in seen then [] else [ToOption(courses[i])])
  {
    var prefix := courses[..i + 1];
    assert prefix[..i] == courses[..i];
    var seen := set j | 0 <= j < i :: courses[j].id;
    assert courses[i].id in seen <==> !FirstOccurrence(prefix, i) by {
      if courses[i].id in seen {
        var j :| 0 <= j < i && courses[j].id == courses[i].id;
        assert prefix[j] == courses[j];
      }
    }
    var kept, front := Deduplicated(prefix), Deduplicated(courses[..i]);
    assert kept == front + (if courses[i].id in seen then [] else [courses[i]]);
    assert |kept| == |front| || kept[|front|] == courses[i];
  }

  /**
   * The post-processing loop of `get_course_options`: a course whose id was
   * seen before is skipped; every other one becomes an option labelled with
   * its name, valued with its id and described by type, ECTS and lecturers.
   */
  method GetCourseOptions(courses: seq<CourseElement>) returns (options: seq<SelectOption>)
    ensures options == CourseOptions(courses)
  {
    var seenCourseIds: set<Option<string>> := {};
    options := [];
    var i := 0;
    while i < |courses|
      invariant 0 <= i <= |courses|
      invariant seenCourseIds == set j | 0 <= j < i :: courses[j].id
      invariant options == CourseOptions(courses[..i])
    {
      var course := courses[i];
      CourseOptionsStep(courses, i);
      if course.id in seenCourseIds {
        i := i + 1;
        continue;
      }
      seenCourseIds := seenCourseIds + {course.id};
      var description := BuildDescription(course);
      options := options + [SelectOption(course.longName, course.id, description)];
      i := i + 1;
    }
    assert courses[..i] == courses;
  }
}
