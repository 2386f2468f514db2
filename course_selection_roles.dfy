/**
 * `bot/role_management/course_selection.py`: the single-choice course menu;
 * the selected course's role is toggled on the member.
 */
module CourseSelectionRoles {
  import opened Wrappers
  import opened Persistence
  import opened UfindRequests
  import opened Queries
  import opened RoleManagement

  /** `add_roles(None)` fails: no role is stored for the course, or the server does not have it. */
  datatype SelectError = AttributeError

  const RemovedText := ":white_check_mark: Kurs-Rolle erfolgreich entfernt."
  const AddedText := ":white_check_mark: Kurs-Rolle erfolgreich hinzugef\U{FC}gt."

  /** The role `get_role` finds for the course: stored for it and known to the server. */
  function CourseRoleIn(db: DatabaseConnector, guildRoles: set<int>, course: string): (r: Option<int>)
    reads db
    ensures r.Some? <==> db.GetCourseRole(course).Some? && db.GetCourseRole(course).value in guildRoles
    ensures r.Some? ==> CourseRole(r.value, course) in db.courseRoles
  {
    match db.GetCourseRole(course)
    case None => None
    case Some(id) => if id in guildRoles then Some(id) else None
  }

  /** The course menu: exactly one of its courses may be selected. */
  class CourseSelect {
    const options: seq<SelectOption>
    const minValues: nat
    const maxValues: nat
    const db: DatabaseConnector

    constructor (courses: seq<SelectOption>, db: DatabaseConnector)
      ensures options == courses && minValues == 1 && maxValues == 1 && this.db == db
    {
      options := courses;
      minValues := 1;
      maxValues := 1;
      this.db := db;
    }

    /**
     * `callback`: only the first selected course counts. Its role is removed
     * when the member holds it and added otherwise, with the matching reply;
     * without a role the server knows, adding fails and nothing changes.
     */
    method Callback(member: Member, guildRoles: set<int>, values: seq<string>) returns (r: Result<string, SelectError>)
      requires |values| >= 1
      modifies member
      ensures var role := CourseRoleIn(db, guildRoles, values[0]);
        (r.Err? <==> role.None?) &&
        (r == Ok(RemovedText) <==> role.Some? && role.value in old(member.roles)) &&
        (r == Ok(AddedText) <==> role.Some? && role.value !in old(member.roles)) &&
        (member.roles == if role.Some? then Toggle(old(member.roles), role.value) else old(member.roles))
    {
      assert |RemovedText| != |AddedText|;
      var role := CourseRoleIn(db, guildRoles, values[0]);
      if role.Some? && role.value in member.roles {
        member.roles := member.roles - {role.value};
        r := Ok(RemovedText);
      } else if role.Some? {
        member.roles := member.roles + {role.value};
        r := Ok(AddedText);
      } else {
        r := Err(AttributeError);
      }
    }
  }
}
