/**
 * `bot/ui/course_selection.py`: the select menu of u:find courses. Each
 * selected course with a course role toggles that role on the member; the
 * courses without one are reported to the moderators, and the member's
 * reply says whether everything, something or nothing could be changed.
 */
module CourseSelectionUi {
  import opened Wrappers
  import opened Persistence
  import opened UfindRequests
  import opened RoleManagement
  import Queries

  /** `add_roles(None)` fails: the stored role id is not a role of the server. */
  datatype SelectError = AttributeError

  /** `if not role_id`: no stored role, or the id 0. */
  predicate Unmapped(roleId: Option<int>) {
    roleId.None? || roleId.value == 0
  }

  /** The member's roles and the missing courses after the loop, and whether it stopped at an unknown role. */
  datatype Selection = Selection(roles: set<int>, missing: seq<string>, failed: bool)

  /** The loop of `callback` over the selected course ids, from the member's `roles`. */
  function SelectCourses(db: DatabaseConnector, guildRoles: set<int>, roles: set<int>, values: seq<string>): (s: Selection)
    reads db
    decreases |values|
  {
    if values == [] then Selection(roles, [], false)
    else
      var prev := SelectCourses(db, guildRoles, roles, values[..|values| - 1]);
      var course := values[|values| - 1];
      var roleId := db.GetCourseRole(course);
      if prev.failed then prev
      else if Unmapped(roleId) then prev.(missing := prev.missing + [course])
      else if roleId.value !in guildRoles then prev.(failed := true)
      else prev.(roles := Toggle(prev.roles, roleId.value))
  }

  /** The selected courses without a course role, in the order selected. */
  function MissingOf(db: DatabaseConnector, values: seq<string>): (r: seq<string>)
    reads db
    ensures forall c :: c in r <==> c in values && Unmapped(db.GetCourseRole(c))
    decreases |values|
  {
    if values == [] then []
    else
      var course := values[|values| - 1];
      assert forall c :: c in values <==> c in values[..|values| - 1] || c == course;
      MissingOf(db, values[..|values| - 1]) + (if Unmapped(db.GetCourseRole(course)) then [course] else [])
  }

  /** The course roles of the other selected courses, in the order selected. */
  function MappedRolesOf(db: DatabaseConnector, values: seq<string>): (r: seq<int>)
    reads db
    ensures |r| + |MissingOf(db, values)| == |values|
    decreases |values|
  {
    if values == [] then []
    else
      var course := values[|values| - 1];
      var roleId := db.GetCourseRole(course);
      MappedRolesOf(db, values[..|values| - 1]) + (if Unmapped(roleId) then [] else [roleId.value])
  }

  /** A role is among the mapped ones exactly when it is the course role of a selected course. */
  lemma {:induction false} MappedRolesOfMembers(db: DatabaseConnector, values: seq<string>, x: int)
    ensures x in MappedRolesOf(db, values) <==> MapsTo(db, values, x)
    decreases |values|
  {
    if values != [] {
      var front, course := values[..|values| - 1], values[|values| - 1];
      assert values == front + [course];
      MappedRolesOfMembers(db, front, x);
      MapsToSnoc(db, front, course, x);
      var roleId := db.GetCourseRole(course);
      if Unmapped(roleId) {
        assert MappedRolesOf(db, values) == MappedRolesOf(db, front);
        assert !RoleOf(db, course, x);
      } else {
        assert MappedRolesOf(db, values) == MappedRolesOf(db, front) + [roleId.value];
        assert RoleOf(db, course, x) <==> x == roleId.value;
      }
    }
  }

  lemma MapsToSnoc(db: DatabaseConnector, front: seq<string>, course: string, x: int)
    ensures MapsTo(db, front + [course], x) <==> MapsTo(db, front, x) || RoleOf(db, course, x)
  {
    var values := front + [course];
    if MapsTo(db, front, x) {
      var c :| c in front && RoleOf(db, c, x);
      assert c in values;
    }
    if RoleOf(db, course, x) {
      assert course in values;
    }
    if MapsTo(db, values, x) {
      var c :| c in values && RoleOf(db, c, x);
      if c != course {
        assert c in front;
      }
    }
  }

  /** `x` is the role stored for course `c`. */
  predicate RoleOf(db: DatabaseConnector, c: string, x: int)
    reads db
  {
    !Unmapped(db.GetCourseRole(c)) && db.GetCourseRole(c).value == x
  }

  /** `x` is the role stored for a selected course. */
  predicate MapsTo(db: DatabaseConnector, values: seq<string>, x: int)
    reads db
  {
    exists c :: c in values && RoleOf(db, c, x)
  }

  /** A role of some selected course the server does not have. */
  predicate HasUnknownRole(db: DatabaseConnector, guildRoles: set<int>, values: seq<string>)
    reads db
  {
    exists c :: c in values && !Unmapped(db.GetCourseRole(c)) && db.GetCourseRole(c).value !in guildRoles
  }

  /** The loop fails exactly when the role of some selected course is unknown to the server. */
  lemma {:induction false} SelectCoursesFails(db: DatabaseConnector, guildRoles: set<int>, roles: set<int>, values: seq<string>)
    ensures SelectCourses(db, guildRoles, roles, values).failed <==> HasUnknownRole(db, guildRoles, values)
    decreases |values|
  {
    if values != [] {
      var front, course := values[..|values| - 1], values[|values| - 1];
      assert forall c :: c in values <==> c in front || c == course;
      SelectCoursesFails(db, guildRoles, roles, front);
      assert HasUnknownRole(db, guildRoles, values) <==> (HasUnknownRole(db, guildRoles, front) ||
        (!Unmapped(db.GetCourseRole(course)) && db.GetCourseRole(course).value !in guildRoles));
    }
  }

  /** Without a failure the loop toggles the roles of the mapped courses in order and collects exactly the unmapped ones. */
  lemma {:induction false} SelectCoursesSucceeds(db: DatabaseConnector, guildRoles: set<int>, roles: set<int>, values: seq<string>)
    ensures var s := SelectCourses(db, guildRoles, roles, values);
      !s.failed ==> s.roles == ToggleEach(roles, MappedRolesOf(db, values)) && s.missing == MissingOf(db, values)
    decreases |values|
  {
    if values != [] {
      var front := values[..|values| - 1];
      SelectCoursesSucceeds(db, guildRoles, roles, front);
      var mapped := MappedRolesOf(db, front);
      var roleId := db.GetCourseRole(values[|values| - 1]);
      if !Unmapped(roleId) {
        assert MappedRolesOf(db, values) == mapped + [roleId.value];
        assert (mapped + [roleId.value])[..|mapped|] == mapped;
        assert MissingOf(db, values) == MissingOf(db, front);
      } else {
        assert MappedRolesOf(db, values) == mapped;
      }
    }
  }

  /** A role that is not the course role of any selected course is left alone, even when the loop fails. */
  lemma {:induction false} SelectCoursesKeepsOthers(db: DatabaseConnector, guildRoles: set<int>, roles: set<int>,
                                                    values: seq<string>, x: int)
    requires forall c :: c in values && !Unmapped(db.GetCourseRole(c)) ==> db.GetCourseRole(c).value != x
    ensures x in SelectCourses(db, guildRoles, roles, values).roles <==> x in roles
    decreases |values|
  {
    if values != [] {
      var front := values[..|values| - 1];
      assert forall c :: c in front ==> c in values;
      SelectCoursesKeepsOthers(db, guildRoles, roles, front, x);
    }
  }

  /** Once the loop has failed, the rest of the selection changes nothing. */
  lemma {:induction false} FailureStops(db: DatabaseConnector, guildRoles: set<int>, roles: set<int>, values: seq<string>, j: nat)
    requires j <= |values| && SelectCourses(db, guildRoles, roles, values[..j]).failed
    ensures SelectCourses(db, guildRoles, roles, values) == SelectCourses(db, guildRoles, roles, values[..j])
    decreases |values|
  {
    if j < |values| {
      var front := values[..|values| - 1];
      assert front[..j] == values[..j];
      FailureStops(db, guildRoles, roles, front, j);
    } else {
      assert values[..j] == values;
    }
  }

  /** `have_roles_changed`: fewer missing courses than selected ones exactly when some selected course had a role. */
  lemma RolesChangedIffMapped(db: DatabaseConnector, values: seq<string>)
    ensures |MissingOf(db, values)| < |values| <==> exists c :: c in values && !Unmapped(db.GetCourseRole(c))
  {
    var mapped := MappedRolesOf(db, values);
    if exists c :: c in values && !Unmapped(db.GetCourseRole(c)) {
      var c :| c in values && !Unmapped(db.GetCourseRole(c));
      var x := db.GetCourseRole(c).value;
      assert RoleOf(db, c, x);
      MappedRolesOfMembers(db, values, x);
    }
  }

  // ---------------------------------------------------------------- replies

  datatype Response = Success | Warning | Sos

  const SuccessText := ":white_check_mark: **Deine Kurs-Rollen wurden erfolgreich angepasst.**"
  const WarningText := ":warning: **Deine Kurs-Rollen wurden angepasst, jedoch gab es anscheinend Probleme:**"
  const SosText := ":sos: **Deine Kurs-Rollen konnten leider nicht angepasst werden:**"
  const ProblemText := "```Es wurde f\U{FC}r mindestens einen der von dir ausgew\U{E4}hlten Kurse noch kein Textkanal " +
    "und/oder Rolle erstellt.```\nIch habe die Moderatoren \U{FC}ber dieses Problem informiert " +
    "und sie werden sich schnellstm\U{F6}glich darum k\U{FC}mmern. Bitte versuche es sp\U{E4}ter noch einmal."

  /** Success when nothing is missing, a warning when some but not all are, an SOS when all are. */
  function ResponseFor(missing: seq<string>, values: seq<string>): (r: Response)
    ensures r == Success <==> missing == []
    ensures r == Warning <==> missing != [] && |missing| < |values|
    ensures r == Sos <==> missing != [] && |missing| >= |values|
  {
    if missing == [] then Success else if |missing| < |values| then Warning else Sos
  }

  /** The options of the courses that are missing, in menu order: the fields of the moderators' notice. */
  function RelevantOptions(options: seq<SelectOption>, missing: seq<string>): (r: seq<SelectOption>)
    ensures forall o :: o in r <==> o in options && o.value.Some? && o.value.value in missing
  {
    Queries.Where(options, (o: SelectOption) => o.value.Some? && o.value.value in missing)
  }

  /** The member's reply and, when something is missing, the options listed for the moderators. */
  datatype Reply = Reply(content: string, notice: Option<seq<SelectOption>>)

  function ReplyFor(options: seq<SelectOption>, missing: seq<string>, values: seq<string>): (r: Reply)
    ensures r.notice.None? <==> missing == []
    ensures r.notice.Some? ==> r.notice.value == RelevantOptions(options, missing)
  {
    match ResponseFor(missing, values)
    case Success => Reply(SuccessText, None)
    case Warning => Reply(WarningText + ProblemText, Some(RelevantOptions(options, missing)))
    case Sos => Reply(SosText + ProblemText, Some(RelevantOptions(options, missing)))
  }

  /** The course menu: between one and all of its courses may be selected. */
  class CourseSelect {
    const options: seq<SelectOption>
    const minValues: nat
    const maxValues: nat
    const db: DatabaseConnector

    constructor (courses: seq<SelectOption>, db: DatabaseConnector)
      ensures options == courses && minValues == 1 && maxValues == |courses| && this.db == db
    {
      options := courses;
      minValues := 1;
      maxValues := |courses|;
      this.db := db;
    }

    /**
     * `callback`: each selected course with a role toggles it on the member;
     * a role unknown to the server ends the loop with an error, keeping the
     * changes made so far.
     */
    method Callback(member: Member, guildRoles: set<int>, values: seq<string>) returns (r: Result<Reply, SelectError>)
      modifies member
      ensures var s := SelectCourses(db, guildRoles, old(member.roles), values);
        member.roles == s.roles && (r.Err? <==> s.failed) && (r.Ok? ==> r.value == ReplyFor(options, s.missing, values))
    {
      ghost var start := member.roles;
      var missing: seq<string> := [];
      for i := 0 to |values|
        invariant SelectCourses(db, guildRoles, start, values[..i]) == Selection(member.roles, missing, false)
      {
        assert values[..i + 1][..i] == values[..i];
        var roleId := db.GetCourseRole(values[i]);
        if roleId.None? || roleId.value == 0 {
          missing := missing + [values[i]];
          continue;
        }
        if roleId.value !in guildRoles {
          FailureStops(db, guildRoles, start, values, i + 1);
          return Err(AttributeError);
        }
        var role := roleId.value;
        if role in member.roles {
          member.roles := member.roles - {role};
        } else {
          member.roles := member.roles + {role};
        }
      }
      assert values[..|values|] == values;
      r := Ok(ReplyFor(options, missing, values));
    }
  }
}
