/**
 * `bot/persistence/database_connector.py`: the `DatabaseConnector` over an
 * in-memory copy of the bot's tables. Every method opens a connection, runs its
 * statements and commits; a method that raises before the commit leaves the
 * tables as they were, since the connection is closed without committing.
 */
module Persistence {
  import opened Wrappers
  import opened Text
  import opened ModmailStatusEnum
  import opened SuggestionStatusEnum
  import opened Queries

  /** `sqlite3.Error` raised by the constructor, the constraint violation of a second offer, and `int(None)`. */
  datatype DbError = Error(message: string) | IntegrityError | TypeError

  /** `parse_sql_file` on the text of the file: the statements between the semicolons. */
  function ParseSqlFile(content: string): (r: seq<string>)
    ensures |r| == Count(content, ';') + 1
    ensures forall k :: 0 <= k < |r| ==> ';' !in r[k]
    ensures Join(";", r) == content
  {
    SplitChar(content, ';');
    Split(content, ";")
  }

  class DatabaseConnector {
    var warnings: seq<Warning>
    var nextWarningId: nat
    var names: seq<NameChange>
    var moduleRoles: set<int>
    var courseRoles: seq<CourseRole>
    var reactionRoles: seq<ReactionRole>
    var uniquenessGroups: set<int>
    var suggestions: seq<Suggestion>
    var nextSuggestionId: nat
    var modmails: seq<Modmail>
    var offers: seq<GroupOffer>
    var requests: seq<GroupRequest>
    var botOnly: set<int>

    /** Row ids lie below the next one handed out, and a user has at most one offer per course. */
    ghost predicate Valid()
      reads this
    {
      (forall w :: w in warnings ==> w.id < nextWarningId) &&
      (forall s :: s in suggestions ==> s.id < nextSuggestionId) &&
      UniqueOffers(offers)
    }

    predicate IsEmpty()
      reads this
    {
      warnings == [] && names == [] && moduleRoles == {} && courseRoles == [] && reactionRoles == [] &&
      uniquenessGroups == {} && suggestions == [] && modmails == [] && offers == [] && requests == [] && botOnly == {}
    }

    /** A connector on a new, empty database. */
    constructor ()
      ensures Valid() && IsEmpty()
    {
      warnings, nextWarningId, names := [], 1, [];
      moduleRoles, courseRoles, reactionRoles, uniquenessGroups := {}, [], [], {};
      suggestions, nextSuggestionId, modmails := [], 1, [];
      offers, requests, botOnly := [], [], {};
    }

    /** `DatabaseConnector(db_file, init_script)`: no file name is a `sqlite3.Error`. */
    static method Create(dbFile: Option<string>) returns (r: Result<DatabaseConnector, DbError>)
      ensures r.Err? <==> dbFile.None?
      ensures r.Ok? ==> fresh(r.value) && r.value.Valid() && r.value.IsEmpty()
    {
      if dbFile.None? {
        return Err(Error("Database filepath and/or filename hasn't been set."));
      }
      var db := new DatabaseConnector();
      return Ok(db);
    }

    // ------------------------------------------------------------ warnings

    method AddMemberWarning(userId: int, timestamp: int, reason: Option<string>)
      requires Valid()
      modifies this`warnings, this`nextWarningId
      ensures Valid()
      ensures warnings == old(warnings) + [Warning(old(nextWarningId), userId, timestamp, reason)]
      ensures nextWarningId == old(nextWarningId) + 1
    {
      warnings := warnings + [Warning(nextWarningId, userId, timestamp, reason)];
      nextWarningId := nextWarningId + 1;
    }

    method RemoveMemberWarning(warningId: nat)
      requires Valid()
      modifies this`warnings
      ensures Valid()
      ensures warnings == Where(old(warnings), (w: Warning) => w.id != warningId)
      ensures GetWarningUserId(warningId) == None
    {
      warnings := Where(warnings, (w: Warning) => w.id != warningId);
    }

    method RemoveMemberWarnings(userId: int)
      requires Valid()
      modifies this`warnings
      ensures Valid()
      ensures warnings == Where(old(warnings), (w: Warning) => w.userId != userId)
      ensures GetMemberWarnings(userId) == None
    {
      warnings := Where(warnings, (w: Warning) => w.userId != userId);
    }

    /** `get_warning_userid`: the member who received the warning, if it exists. */
    function GetWarningUserId(warningId: nat): (r: Option<int>)
      reads this
      ensures r.None? <==> forall w :: w in warnings ==> w.id != warningId
      ensures r.Some? ==> exists w :: w in warnings && w.id == warningId && w.userId == r.value
    {
      match FirstWhere(warnings, (w: Warning) => w.id == warningId)
      case None => None
      case Some(w) => Some(w.userId)
    }

    /** `get_member_warnings`: the member's warnings, or `None` when there are none. */
    function GetMemberWarnings(userId: int): (r: Option<seq<Warning>>)
      reads this
      ensures r.None? <==> forall w :: w in warnings ==> w.userId != userId
      ensures r.Some? ==> forall w :: w in r.value <==> w in warnings && w.userId == userId
    {
      WhereEmpty(warnings, (w: Warning) => w.userId == userId);
      NonEmpty(Where(warnings, (w: Warning) => w.userId == userId))
    }

    // --------------------------------------------------------- name history

    method AddMemberName(userId: int, name: string, timestamp: int)
      requires Valid()
      modifies this`names
      ensures Valid()
      ensures names == old(names) + [NameChange(userId, name, timestamp)]
      ensures GetMemberNames(userId) == Some([NameChange(userId, name, timestamp)] + NameHistory(old(names), userId))
    {
      NameHistoryNewestFirst(names, NameChange(userId, name, timestamp));
      names := names + [NameChange(userId, name, timestamp)];
    }

    /** `get_member_names`: the member's earlier names, newest first, or `None`. */
    function GetMemberNames(userId: int): (r: Option<seq<NameChange>>)
      reads this
      ensures r.None? <==> forall n :: n in names ==> n.userId != userId
      ensures r.Some? ==> r.value == NameHistory(names, userId) && forall n :: n in r.value ==> n.userId == userId
    {
      NonEmpty(NameHistory(names, userId))
    }

    // ------------------------------------------------- module and course roles

    method AddModuleRole(roleId: int)
      requires Valid()
      modifies this`moduleRoles
      ensures Valid()
      ensures moduleRoles == old(moduleRoles) + {roleId}
      ensures CheckModuleRole(roleId)
    {
      moduleRoles := moduleRoles + {roleId};
    }

    method RemoveModuleRole(roleId: int)
      requires Valid()
      modifies this`moduleRoles
      ensures Valid()
      ensures moduleRoles == old(moduleRoles) - {roleId}
      ensures !CheckModuleRole(roleId)
    {
      moduleRoles := moduleRoles - {roleId};
    }

    /** `check_module_role`: `bool(row[0])` of `SELECT EXISTS(...)` on the whitelist. */
    predicate CheckModuleRole(roleId: int)
      reads this
      ensures CheckModuleRole(roleId) <==> roleId in moduleRoles
    {
      SelectExists(moduleRoles, roleId) != 0
    }

    /** `get_course_role`: the role of the first row for the course, or `None`. */
    function GetCourseRole(courseId: string): (r: Option<int>)
      reads this
      ensures r.None? <==> forall c :: c in courseRoles ==> c.courseId != courseId
      ensures r.Some? ==> CourseRole(r.value, courseId) in courseRoles
    {
      match FirstWhere(courseRoles, (c: CourseRole) => c.courseId == courseId)
      case None => None
      case Some(c) => Some(c.roleId)
    }

    method AddCourseRole(roleId: int, courseId: string)
      requires Valid()
      modifies this`courseRoles
      ensures Valid()
      ensures courseRoles == old(courseRoles) + [CourseRole(roleId, courseId)]
      ensures GetCourseRole(courseId).Some?
    {
      courseRoles := courseRoles + [CourseRole(roleId, courseId)];
      assert courseRoles[|courseRoles| - 1] in courseRoles;
    }

    method RemoveCourseRole(roleId: int)
      requires Valid()
      modifies this`courseRoles
      ensures Valid()
      ensures courseRoles == Where(old(courseRoles), (c: CourseRole) => c.roleId != roleId)
      ensures forall c :: c in courseRoles ==> c.roleId != roleId
    {
      courseRoles := Where(courseRoles, (c: CourseRole) => c.roleId != roleId);
    }

    // ------------------------------------------------------- reaction roles

    /** `get_reaction_role`: the role for a reaction with `emoji` on the message, or `None`. */
    function GetReactionRole(messageId: int, emoji: string): (r: Option<int>)
      reads this
      ensures r.None? <==> forall x :: x in reactionRoles ==> x.messageId != messageId || x.emoji != emoji
      ensures r.Some? ==> ReactionRole(messageId, emoji, r.value) in reactionRoles
    {
      match FirstWhere(reactionRoles, (x: ReactionRole) => x.messageId == messageId && x.emoji == emoji)
      case None => None
      case Some(x) => Some(x.roleId)
    }

    method AddReactionRole(messageId: int, emoji: string, roleId: int)
      requires Valid()
      modifies this`reactionRoles
      ensures Valid()
      ensures reactionRoles == old(reactionRoles) + [ReactionRole(messageId, emoji, roleId)]
      ensures GetReactionRole(messageId, emoji).Some?
    {
      reactionRoles := reactionRoles + [ReactionRole(messageId, emoji, roleId)];
      assert reactionRoles[|reactionRoles| - 1] in reactionRoles;
    }

    method RemoveReactionRole(messageId: int, emoji: string)
      requires Valid()
      modifies this`reactionRoles
      ensures Valid()
      ensures reactionRoles == Where(old(reactionRoles), (x: ReactionRole) => x.messageId != messageId || x.emoji != emoji)
      ensures GetReactionRole(messageId, emoji) == None
    {
      reactionRoles := Where(reactionRoles, (x: ReactionRole) => x.messageId != messageId || x.emoji != emoji);
    }

    /** `clear_reaction_roles`: drops the message's rows and says whether there were any. */
    method ClearReactionRoles(messageId: int) returns (deleted: bool)
      requires Valid()
      modifies this`reactionRoles
      ensures Valid()
      ensures reactionRoles == Where(old(reactionRoles), (x: ReactionRole) => x.messageId != messageId)
      ensures deleted <==> exists x :: x in old(reactionRoles) && x.messageId == messageId
    {
      var kept := Where(reactionRoles, (x: ReactionRole) => x.messageId != messageId);
      deleted := |reactionRoles| - |kept| != 0;
      if !deleted {
        WhereKeepsAllWhenSameLength(reactionRoles, (x: ReactionRole) => x.messageId != messageId);
      } else if forall i :: 0 <= i < |reactionRoles| ==> reactionRoles[i].messageId != messageId {
        WhereAll(reactionRoles, (x: ReactionRole) => x.messageId != messageId);
      }
      reactionRoles := kept;
    }

    method AddReactionRoleUniquenessGroup(messageId: int)
      requires Valid()
      modifies this`uniquenessGroups
      ensures Valid()
      ensures uniquenessGroups == old(uniquenessGroups) + {messageId}
      ensures IsReactionRoleUniquenessGroup(messageId)
    {
      uniquenessGroups := uniquenessGroups + {messageId};
    }

    method RemoveReactionRoleUniquenessGroup(messageId: int)
      requires Valid()
      modifies this`uniquenessGroups
      ensures Valid()
      ensures uniquenessGroups == old(uniquenessGroups) - {messageId}
      ensures !IsReactionRoleUniquenessGroup(messageId)
    {
      uniquenessGroups := uniquenessGroups - {messageId};
    }

    /** `is_reaction_role_uniqueness_group`: `bool(row[0])` of `SELECT EXISTS(...)` on the groups. */
    predicate IsReactionRoleUniquenessGroup(messageId: int)
      reads this
      ensures IsReactionRoleUniquenessGroup(messageId) <==> messageId in uniquenessGroups
    {
      SelectExists(uniquenessGroups, messageId) != 0
    }

    // ---------------------------------------------------------- suggestions

    /** `add_suggestion`: a new undecided suggestion; the answer is its fresh row id. */
    method AddSuggestion(authorId: int, timestamp: int) returns (id: nat)
      requires Valid()
      modifies this`suggestions, this`nextSuggestionId
      ensures Valid()
      ensures id == old(nextSuggestionId) && forall s :: s in old(suggestions) ==> s.id != id
      ensures suggestions == old(suggestions) + [Suggestion(id, authorId, timestamp, None, Undecided)]
      ensures GetSuggestion(id).Some?
    {
      id := nextSuggestionId;
      suggestions := suggestions + [Suggestion(id, authorId, timestamp, None, Undecided)];
      assert suggestions[|suggestions| - 1] in suggestions;
      nextSuggestionId := nextSuggestionId + 1;
    }

    method SetSuggestionMessageId(suggestionId: nat, messageId: int)
      requires Valid()
      modifies this`suggestions
      ensures Valid()
      ensures |suggestions| == |old(suggestions)|
      ensures forall i :: 0 <= i < |suggestions| ==>
        suggestions[i] == if old(suggestions[i].id) == suggestionId then old(suggestions[i]).(messageId := Some(messageId))
                          else old(suggestions[i])
    {
      var rows := suggestions;
      suggestions := seq(|rows|, i requires 0 <= i < |rows| =>
        if rows[i].id == suggestionId then rows[i].(messageId := Some(messageId)) else rows[i]);
      forall s | s in suggestions ensures s.id < nextSuggestionId {
        var i :| 0 <= i < |suggestions| && suggestions[i] == s;
        assert rows[i] in rows;
      }
    }

    /** `get_suggestion`: the row with the id, or `None`. */
    function GetSuggestion(suggestionId: nat): (r: Option<Suggestion>)
      reads this
      ensures r.None? <==> forall s :: s in suggestions ==> s.id != suggestionId
      ensures r.Some? ==> r.value in suggestions && r.value.id == suggestionId
    {
      FirstWhere(suggestions, (s: Suggestion) => s.id == suggestionId)
    }

    /** `get_suggestion_status`: the status of the suggestion posted as the message, or `None`. */
    function GetSuggestionStatus(messageId: int): (r: Option<SuggestionStatus>)
      reads this
      ensures r.None? <==> forall s :: s in suggestions ==> s.messageId != Some(messageId)
      ensures r.Some? ==> exists s :: s in suggestions && s.messageId == Some(messageId) && s.status == r.value
    {
      match FirstWhere(suggestions, (s: Suggestion) => s.messageId == Some(messageId))
      case None => None
      case Some(s) => Some(s.status)
    }

    /** `set_suggestion_status`: any status may follow any other; the answer is whether a row changed. */
    method SetSuggestionStatus(suggestionId: nat, status: SuggestionStatus) returns (changed: bool)
      requires Valid()
      modifies this`suggestions
      ensures Valid()
      ensures changed <==> exists s :: s in old(suggestions) && s.id == suggestionId
      ensures |suggestions| == |old(suggestions)|
      ensures forall i :: 0 <= i < |suggestions| ==>
        suggestions[i] == if old(suggestions[i].id) == suggestionId then old(suggestions[i]).(status := status)
                          else old(suggestions[i])
    {
      changed := GetSuggestion(suggestionId).Some?;
      var rows := suggestions;
      suggestions := seq(|rows|, i requires 0 <= i < |rows| =>
        if rows[i].id == suggestionId then rows[i].(status := status) else rows[i]);
      forall s | s in suggestions ensures s.id < nextSuggestionId {
        var i :| 0 <= i < |suggestions| && suggestions[i] == s;
        assert rows[i] in rows;
      }
    }

    function GetAllSuggestionsWithStatus(status: SuggestionStatus): (r: Option<seq<Suggestion>>)
      reads this
      ensures r.None? <==> forall s :: s in suggestions ==> s.status != status
      ensures r.Some? ==> forall s :: s in r.value <==> s in suggestions && s.status == status
    {
      WhereEmpty(suggestions, (s: Suggestion) => s.status == status);
      NonEmpty(Where(suggestions, (s: Suggestion) => s.status == status))
    }

    // -------------------------------------------------------------- modmail

    /** `add_modmail`: a new modmail starts OPEN. */
    method AddModmail(messageId: int, author: string, timestamp: int)
      requires Valid()
      modifies this`modmails
      ensures Valid()
      ensures modmails == old(modmails) + [Modmail(messageId, author, timestamp, Open)]
      ensures GetModmailStatus(messageId).Some?
    {
      modmails := modmails + [Modmail(messageId, author, timestamp, Open)];
      assert modmails[|modmails| - 1] in modmails;
    }

    /** `get_modmail_status` */
    function GetModmailStatus(messageId: int): (r: Option<ModmailStatus>)
      reads this
      ensures r.None? <==> forall m :: m in modmails ==> m.id != messageId
      ensures r.Some? ==> exists m :: m in modmails && m.id == messageId && m.status == r.value
    {
      ModmailStatusOf(modmails, messageId)
    }

    /** `change_modmail_status`: the rows of the message get the status; a missing message changes nothing. */
    method ChangeModmailStatus(messageId: int, status: ModmailStatus)
      requires Valid()
      modifies this`modmails
      ensures Valid()
      ensures modmails == SetModmailStatus(old(modmails), messageId, status)
      ensures GetModmailStatus(messageId) == if old(GetModmailStatus(messageId)).Some? then Some(status) else None
      ensures forall other :: other != messageId ==> GetModmailStatus(other) == old(GetModmailStatus(other))
    {
      StatusAfterChange(modmails, messageId, status);
      forall other | other != messageId
        ensures ModmailStatusOf(SetModmailStatus(modmails, messageId, status), other) == ModmailStatusOf(modmails, other)
      {
        OtherStatusUnchanged(modmails, messageId, status, other);
      }
      modmails := SetModmailStatus(modmails, messageId, status);
    }

    function GetAllModmailWithStatus(status: ModmailStatus): (r: Option<seq<Modmail>>)
      reads this
      ensures r.None? <==> forall m :: m in modmails ==> m.status != status
      ensures r.Some? ==> forall m :: m in r.value <==> m in modmails && m.status == status
    {
      WhereEmpty(modmails, (m: Modmail) => m.status == status);
      NonEmpty(Where(modmails, (m: Modmail) => m.status == status))
    }

    // ------------------------------------------------------- group exchange

    /**
     * `add_group_offer_and_requests`: one offer row, then one request row per
     * requested group, committed together. A second offer of the user for the
     * course violates the table's constraint, and nothing is stored.
     */
    method AddGroupOfferAndRequests(userId: int, course: int, offered: int, requested: seq<int>)
      returns (err: Option<DbError>)
      requires Valid()
      modifies this`offers, this`requests
      ensures Valid()
      ensures err.Some? <==> old(HasOffer(offers, userId, course))
      ensures err.Some? ==> err.value == IntegrityError && offers == old(offers) && requests == old(requests)
      ensures err.None? ==>
        offers == old(offers) + [GroupOffer(userId, course, offered, None)] &&
        requests == old(requests) + RequestRows(userId, course, requested)
    {
      if exists o :: o in offers && o.userId == userId && o.course == course {
        return Some(IntegrityError);
      }
      var pending: seq<GroupRequest> := [];
      var i := 0;
      while i < |requested|
        invariant 0 <= i <= |requested|
        invariant pending == RequestRows(userId, course, requested[..i])
      {
        pending := pending + [GroupRequest(userId, course, requested[i])];
        i := i + 1;
      }
      assert requested[..i] == requested;
      AppendOfferKeepsUnique(offers, GroupOffer(userId, course, offered, None));
      offers := offers + [GroupOffer(userId, course, offered, None)];
      requests := requests + pending;
      return None;
    }

    method UpdateGroupExchangeMessageId(userId: int, course: int, messageId: int)
      requires Valid()
      modifies this`offers
      ensures Valid()
      ensures offers == SetOfferMessage(old(offers), userId, course, messageId)
    {
      SetOfferMessageKeepsUnique(offers, userId, course, messageId);
      offers := SetOfferMessage(offers, userId, course, messageId);
    }

    /** `get_candidates_for_group_exchange`: the candidate rows, or `None` when there are none. */
    function GetCandidatesForGroupExchange(userId: int, course: int, offered: int, requested: seq<int>)
      : (r: Option<set<Candidate>>)
      reads this
      ensures r.None? <==> Candidates(offers, requests, userId, course, offered, requested) == {}
      ensures r.Some? ==> forall c :: c in r.value ==> c.userId != userId && c.groupNr in requested
    {
      NonEmptySet(Candidates(offers, requests, userId, course, offered, requested))
    }

    /**
     * `get_group_exchange_message`: `None` without an offer; an offer whose
     * message id was never set gives `int(None)`, a TypeError.
     */
    function GetGroupExchangeMessage(userId: int, course: int): (r: Result<Option<int>, DbError>)
      reads this
      ensures r == Ok(None) <==> !HasOffer(offers, userId, course)
      ensures r.Ok? && r.value.Some? ==>
        exists o :: o in offers && o.userId == userId && o.course == course && o.messageId == r.value
      ensures r.Err? ==> r.error == TypeError
      ensures r.Err? ==> exists o :: o in offers && o.userId == userId && o.course == course && o.messageId.None?
    {
      match FirstWhere(offers, (o: GroupOffer) => o.userId == userId && o.course == course)
      case None => Ok(None)
      case Some(o) => if o.messageId.None? then Err(TypeError) else Ok(Some(o.messageId.value))
    }

    /** `remove_group_exchange_offer`: the pair's offer and requests go, every other row stays. */
    method RemoveGroupExchangeOffer(userId: int, course: int)
      requires Valid()
      modifies this`offers, this`requests
      ensures Valid()
      ensures offers == RemoveOffer(old(offers), userId, course)
      ensures requests == RemoveRequests(old(requests), userId, course)
      ensures GetGroupExchangeMessage(userId, course) == Ok(None)
    {
      ghost var before := offers;
      offers := RemoveOffer(offers, userId, course);
      requests := RemoveRequests(requests, userId, course);
      WhereKeepsUnique(before, (o: GroupOffer) => !OfUserInCourse(userId, course, o.userId, o.course));
    }

    /** `get_group_exchange_for_user`: one listing row per course, or `None`. */
    function GetGroupExchangeForUser(userId: int): (r: Option<set<Listing>>)
      reads this
      ensures r.None? <==> ExchangeListing(offers, requests, userId) == {}
      ensures r.Some? ==> forall l :: l in r.value ==> HasOffer(offers, userId, l.course)
    {
      NonEmptySet(ExchangeListing(offers, requests, userId))
    }

    // --------------------------------------------------------------- bot-only

    /** `is_botonly`: `bool(row[0])` of `SELECT EXISTS(...)` on the bot-only channels. */
    predicate IsBotOnly(channelId: int)
      reads this
      ensures IsBotOnly(channelId) <==> channelId in botOnly
    {
      SelectExists(botOnly, channelId) != 0
    }

    method ActivateBotOnly(channelId: int)
      requires Valid()
      modifies this`botOnly
      ensures Valid()
      ensures botOnly == old(botOnly) + {channelId}
      ensures IsBotOnly(channelId)
    {
      botOnly := botOnly + {channelId};
    }

    method DeactivateBotOnly(channelId: int)
      requires Valid()
      modifies this`botOnly
      ensures Valid()
      ensures botOnly == old(botOnly) - {channelId}
      ensures !IsBotOnly(channelId)
    {
      botOnly := botOnly - {channelId};
    }
  }
}
