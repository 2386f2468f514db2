/**
 * `bot/moderation/moderation.py`: who may use the moderation commands, the
 * bounds of `tag` and `purge`, the automatic punishments and the expiry of
 * warnings, the status changes of a modmail ticket, and the texts of the
 * modlog embed, the ticket list and the shortened role field.
 */
module Moderation {
  import opened Wrappers
  import opened Text
  import opened Constants
  import opened ModmailStatusEnum
  import opened Queries
  import opened Persistence

  // ------------------------------------------------------------ cog check

  /** `cog_check`: `report` and `modmail` are open to everyone, the rest needs the moderator role. */
  function CogCheck(commandName: string, authorIsModerator: bool): (allowed: bool)
    ensures commandName == "report" || commandName == "modmail" ==> allowed
    ensures commandName != "report" && commandName != "modmail" ==> (allowed <==> authorIsModerator)
    ensures authorIsModerator ==> allowed
  {
    if commandName in ["report", "modmail"] then true else authorIsModerator
  }

  // ------------------------------------------------------------------ tag

  /** A forum post carries at most this many tags (a limit of Discord). */
  const MaxThreadTags := 5

  /** What `tag` does: delete the invocation outside a forum post, refuse, or add the matching tags. */
  datatype TagOutcome = DeleteInvocation | TooManyTags | AddTags(tags: seq<string>)

  function LowerAll(tags: seq<string>): (r: seq<string>)
    ensures |r| == |tags|
    ensures forall i :: 0 <= i < |tags| ==> r[i] == Lower(tags[i])
  {
    seq(|tags|, i requires 0 <= i < |tags| => Lower(tags[i]))
  }

  /**
   * `tag`: more than five tags in all refuses the whole request; otherwise the
   * forum's available tags whose names match a requested tag up to letter case
   * are added, in the forum's order.
   */
  function TagThread(inForumPost: bool, tags: seq<string>, applied: nat, available: seq<string>): (r: TagOutcome)
    ensures !inForumPost <==> r == DeleteInvocation
    ensures inForumPost ==> (r == TooManyTags <==> |tags| + applied > MaxThreadTags)
    ensures r.AddTags? ==> |r.tags| <= |available|
    ensures r.AddTags? ==>
      forall t :: t in r.tags <==> t in available && exists k :: 0 <= k < |tags| && Lower(t) == Lower(tags[k])
  {
    if !inForumPost then DeleteInvocation
    else if |tags| + applied > MaxThreadTags then TooManyTags
    else
      var lowercaseTags := LowerAll(tags);
      AddTags(Where(available, (t: string) => Lower(t) in lowercaseTags))
  }

  /** Only the letter case of a requested tag is irrelevant: requests equal up to case add the same tags. */
  lemma TagThreadIgnoresCase(inForumPost: bool, tags: seq<string>, other: seq<string>, applied: nat, available: seq<string>)
    requires |tags| == |other| && forall i :: 0 <= i < |tags| ==> Lower(tags[i]) == Lower(other[i])
    ensures TagThread(inForumPost, tags, applied, available) == TagThread(inForumPost, other, applied, available)
  {
    assert LowerAll(tags) == LowerAll(other);
  }

  // ---------------------------------------------------------------- purge

  datatype BadArgument = BadArgument

  /** The amount check of `purge`: 1 to `LIMIT_PURGE_MESSAGES` messages, otherwise BadArgument. */
  function PurgeAmount(amount: int): (r: Result<nat, BadArgument>)
    ensures r.Ok? <==> 1 <= amount <= LimitPurgeMessages
    ensures r.Ok? ==> r.value == amount
  {
    if amount <= 0 || amount > LimitPurgeMessages then Err(BadArgument) else Ok(amount)
  }

  /** How many messages are asked for: one more in the channel where the command itself was posted. */
  function PurgeLimit(amount: nat, inPurgeChannel: bool): (n: nat)
    ensures n >= amount
  {
    if inPurgeChannel then amount + 1 else amount
  }

  /** The number of deleted messages announced; the invocation does not count. */
  function ReportedPurgeCount(deleted: nat, inPurgeChannel: bool): (n: int)
    ensures n <= deleted
  {
    if inPurgeChannel then deleted - 1 else deleted
  }

  /**
   * When the channel has enough messages, the announcement names exactly the
   * amount the moderator asked for, wherever the command was posted.
   */
  lemma PurgeReportsAmount(amount: int, inPurgeChannel: bool)
    requires PurgeAmount(amount).Ok?
    ensures ReportedPurgeCount(PurgeLimit(PurgeAmount(amount).value, inPurgeChannel), inPurgeChannel) == amount
  {
  }

  /** Fewer deleted messages than asked for never make the announcement exceed the amount. */
  lemma PurgeReportBounded(amount: nat, deleted: nat, inPurgeChannel: bool)
    requires deleted <= PurgeLimit(amount, inPurgeChannel)
    ensures ReportedPurgeCount(deleted, inPurgeChannel) <= amount
  {
  }

  // ------------------------------------------------------------- warnings

  /** A command the bot invokes on its own, with its duration argument, if any. */
  datatype Punishment = Punishment(command: string, duration: Option<string>)

  /** The `punishments` dictionary of `check_warnings`. */
  function PunishmentFor(count: nat): (r: Option<Punishment>)
    ensures r.Some? <==> count == LimitWarningsLvl1 || count == LimitWarningsLvl2 || count == LimitWarningsLvl3
    ensures count == LimitWarningsLvl1 ==> r == Some(Punishment("tempmute", Some("1 week")))
    ensures count == LimitWarningsLvl2 ==> r == Some(Punishment("tempban", Some("2 weeks")))
    ensures count == LimitWarningsLvl3 ==> r == Some(Punishment("ban", None))
  {
    if count == LimitWarningsLvl1 then Some(Punishment("tempmute", Some("1 week")))
    else if count == LimitWarningsLvl2 then Some(Punishment("tempban", Some("2 weeks")))
    else if count == LimitWarningsLvl3 then Some(Punishment("ban", None))
    else None
  }

  /** The weeks that warnings stay on record: 4 for the first warning, `(n + 1) * 4` for n > 1. */
  function ExpiryWeeks(count: nat): (w: nat)
    ensures w >= 4
    ensures w % 4 == 0
  {
    if count > 1 then (count + 1) * 4 else 4
  }

  /** More warnings never expire sooner, and from the first warning on each further one adds time. */
  lemma ExpiryWeeksGrow(a: nat, b: nat)
    requires a <= b
    ensures ExpiryWeeks(a) <= ExpiryWeeks(b)
    ensures 1 <= a < b ==> ExpiryWeeks(a) < ExpiryWeeks(b)
  {
  }

  /** The scheduler job for the member's warnings: a date a number of weeks from now, or earlier than the job's date. */
  datatype Expiry = WeeksFromNow(weeks: nat) | WeeksEarlier(weeks: nat)

  /** What `check_warnings` does, given the member's warning rows. */
  datatype WarningCheck = WarningCheck(punishment: Option<Punishment>, expiry: Option<Expiry>, removeExpiryJob: bool)

  /** The number of warnings: `len(warnings) if warnings else 0`. */
  function WarningCount(warnings: Option<seq<Warning>>): (n: nat)
    ensures warnings.None? ==> n == 0
    ensures warnings.Some? ==> n == |warnings.value|
  {
    if warnings.Some? then |warnings.value| else 0
  }

  /**
   * `check_warnings` over the rows `get_member_warnings` returns: a punishment
   * only right after a warning was added and only at 3, 5 and 6 warnings; a
   * new expiry date from now after an addition; after a removal the job is
   * moved as many weeks earlier as the shorter term saves; without warnings
   * the job is removed.
   */
  function CheckWarnings(warnings: Option<seq<Warning>>, wasWarningAdded: bool): (r: WarningCheck)
    ensures r.removeExpiryJob <==> WarningCount(warnings) == 0
    ensures r.removeExpiryJob ==> r.punishment.None? && r.expiry.None?
    ensures r.punishment.Some? <==> wasWarningAdded && PunishmentFor(WarningCount(warnings)).Some?
    ensures r.punishment.Some? ==> r.punishment == PunishmentFor(WarningCount(warnings))
    ensures WarningCount(warnings) != 0 && wasWarningAdded ==> r.expiry == Some(WeeksFromNow(ExpiryWeeks(WarningCount(warnings))))
    ensures WarningCount(warnings) != 0 && !wasWarningAdded ==>
      r.expiry == Some(WeeksEarlier(ExpiryWeeks(WarningCount(warnings) + 1) - ExpiryWeeks(WarningCount(warnings))))
  {
    var cntrWarnings := WarningCount(warnings);
    if cntrWarnings != 0 then
      var punishment := if wasWarningAdded then PunishmentFor(cntrWarnings) else None;
      var weeks := ExpiryWeeks(cntrWarnings);
      var expiry := if wasWarningAdded then WeeksFromNow(weeks) else WeeksEarlier((cntrWarnings + 2) * 4 - weeks);
      WarningCheck(punishment, Some(expiry), false)
    else WarningCheck(None, None, true)
  }

  /** Every punishment level is reached by adding a warning: a removal never punishes. */
  lemma RemovalNeverPunishes(warnings: Option<seq<Warning>>)
    ensures CheckWarnings(warnings, false).punishment.None?
  {
  }

  // -------------------------------------------------------------- modmail

  /** The AttributeError raised on a member of `ModmailStatus` that does not exist. */
  datatype AttributeError = AttributeError

  /** What happens to the ticket's embed and reactions. */
  datatype ModmailUpdate = ModmailUpdate(title: string, clearAssignReaction: bool, addAssignReaction: bool)

  /** The status a reaction event asks for: done closes, assign takes in progress, any removal reopens. */
  function ModmailTarget(emoji: string, reactionAdded: bool): (s: ModmailStatus)
    ensures !reactionAdded ==> s == Open
    ensures reactionAdded && emoji == EmojiModmailDone ==> s == Closed
    ensures reactionAdded && emoji == EmojiModmailAssign ==> s == InProgress
  {
    if reactionAdded && emoji == EmojiModmailDone then Closed
    else if reactionAdded && emoji == EmojiModmailAssign then InProgress
    else Open
  }

  function StatusTitle(s: ModmailStatus): string {
    "Status: " + match s
      case Closed => "Erledigt"
      case InProgress => "In Bearbeitung"
      case Open => "Offen"
  }

  /**
   * `change_modmail_status` as written: the assign branch names
   * `ModmailStatus.ASSIGNED`, which the enum does not define, so it raises
   * before anything is stored.
   */
  method ChangeModmailStatusAsWritten(db: DatabaseConnector, messageId: int, emoji: string, reactionAdded: bool)
    returns (r: Result<ModmailUpdate, AttributeError>)
    requires db.Valid()
    modifies db`modmails
    ensures db.Valid()
    ensures r.Err? <==> reactionAdded && emoji == EmojiModmailAssign && emoji != EmojiModmailDone
    ensures r.Err? ==> db.modmails == old(db.modmails)
    ensures r.Ok? ==> db.modmails == SetModmailStatus(old(db.modmails), messageId, ModmailTarget(emoji, reactionAdded))
  {
    if reactionAdded && emoji == EmojiModmailDone {
      db.ChangeModmailStatus(messageId, Closed);
      return Ok(ModmailUpdate("Status: Erledigt", true, false));
    } else if reactionAdded && emoji == EmojiModmailAssign {
      return Err(AttributeError);
    } else {
      db.ChangeModmailStatus(messageId, Open);
      return Ok(ModmailUpdate("Status: Offen", false, emoji == EmojiModmailDone));
    }
  }

  /** Assigning a ticket, as written, never stores a status. */
  method AssignNeverStored(db: DatabaseConnector, messageId: int) returns (r: Result<ModmailUpdate, AttributeError>)
    requires db.Valid()
    modifies db`modmails
    ensures r.Err? && db.modmails == old(db.modmails)
  {
    r := ChangeModmailStatusAsWritten(db, messageId, EmojiModmailAssign, true);
  }

  /**
   * `change_modmail_status` with the assign branch storing IN_PROGRESS: the
   * ticket gets the status the reaction asks for, the title names it, and the
   * reactions are adjusted.
   */
  method ChangeModmailStatus(db: DatabaseConnector, messageId: int, emoji: string, reactionAdded: bool)
    returns (u: ModmailUpdate)
    requires db.Valid()
    modifies db`modmails
    ensures db.Valid()
    ensures db.modmails == SetModmailStatus(old(db.modmails), messageId, ModmailTarget(emoji, reactionAdded))
    ensures db.GetModmailStatus(messageId) ==
      if old(db.GetModmailStatus(messageId)).Some? then Some(ModmailTarget(emoji, reactionAdded)) else None
    ensures forall other :: other != messageId ==> db.GetModmailStatus(other) == old(db.GetModmailStatus(other))
    ensures u.title == StatusTitle(ModmailTarget(emoji, reactionAdded))
    ensures u.clearAssignReaction <==> reactionAdded && emoji == EmojiModmailDone
    ensures u.addAssignReaction <==> !reactionAdded && emoji == EmojiModmailDone
  {
    var title := "Status: ";
    if reactionAdded && emoji == EmojiModmailDone {
      db.ChangeModmailStatus(messageId, Closed);
      title := title + "Erledigt";
      u := ModmailUpdate(title, true, false);
    } else if reactionAdded && emoji == EmojiModmailAssign {
      db.ChangeModmailStatus(messageId, InProgress);
      title := title + "In Bearbeitung";
      u := ModmailUpdate(title, false, false);
    } else {
      db.ChangeModmailStatus(messageId, Open);
      title := title + "Offen";
      u := ModmailUpdate(title, false, emoji == EmojiModmailDone);
    }
  }

  /** Removing the reaction after adding it reopens the ticket, whichever reaction it was. */
  lemma ReactionRemovalReopens(rows: seq<Modmail>, id: int, emoji: string, removed: string)
    requires ModmailStatusOf(rows, id).Some?
    ensures ModmailStatusOf(
      SetModmailStatus(SetModmailStatus(rows, id, ModmailTarget(emoji, true)), id, ModmailTarget(removed, false)), id)
      == Some(Open)
  {
    var once := SetModmailStatus(rows, id, ModmailTarget(emoji, true));
    StatusAfterChange(rows, id, ModmailTarget(emoji, true));
    StatusAfterChange(once, id, Open);
  }

  // --------------------------------------------------------------- modlog

  const UserLabel: string := "**Betroffener:** "
  const ModeratorLabel: string := "**Moderator:** "
  const ReasonLabel: string := "**Begr\U{FC}ndung:** "
  const DetailsLabel: string := "**Details:** "

  /** `_build_modlog_embed`: the description of the modlog embed. */
  function ModlogDescription(user: Option<string>, moderator: string, reason: Option<string>, details: Option<string>): string {
    var d0 := if user.Some? then UserLabel + user.value + "\n" else "";
    var d1 := d0 + (ModeratorLabel + moderator);
    var d2 := if Given(reason) then d1 + ("\n" + ReasonLabel + reason.value) else d1;
    if Given(details) then d2 + ("\n" + DetailsLabel + details.value) else d2
  }

  /** The lines the modlog description should hold: the moderator always, the others when given. */
  function ModlogLines(user: Option<string>, moderator: string, reason: Option<string>, details: Option<string>): (r: seq<string>)
    ensures |r| >= 1
  {
    (if user.Some? then [UserLabel + user.value] else [])
    + [ModeratorLabel + moderator]
    + (if Given(reason) then [ReasonLabel + reason.value] else [])
    + (if Given(details) then [DetailsLabel + details.value] else [])
  }

  /**
   * Read back line by line, the description holds exactly the lines of
   * `ModlogLines`, in that order, as long as no value holds a newline.
   */
  lemma ModlogDescriptionLines(user: Option<string>, moderator: string, reason: Option<string>, details: Option<string>)
    requires user.Some? ==> '\n' !in user.value
    requires '\n' !in moderator
    requires reason.Some? ==> '\n' !in reason.value
    requires details.Some? ==> '\n' !in details.value
    ensures Split(ModlogDescription(user, moderator, reason, details), "\n") == ModlogLines(user, moderator, reason, details)
  {
    ModlogDescriptionJoin(user, moderator, reason, details);
    ModlogLinesSingle(user, moderator, reason, details);
    SplitJoin(ModlogLines(user, moderator, reason, details), "\n");
  }

  lemma ModlogDescriptionJoin(user: Option<string>, moderator: string, reason: Option<string>, details: Option<string>)
    ensures ModlogDescription(user, moderator, reason, details) == Join("\n", ModlogLines(user, moderator, reason, details))
  {
    var moderatorLine := ModeratorLabel + moderator;
    var l0: seq<string> := if user.Some? then [UserLabel + user.value] else [];
    var d0 := if user.Some? then UserLabel + user.value + "\n" else "";
    var l1 := l0 + [moderatorLine];
    var d1 := d0 + moderatorLine;
    if user.Some? {
      JoinSnoc("\n", l0, moderatorLine);
    } else {
      assert l1 == [moderatorLine];
    }
    assert d1 == Join("\n", l1);
    var reasonLine := ReasonLabel + (if reason.Some? then reason.value else "");
    var l2 := if Given(reason) then l1 + [reasonLine] else l1;
    var d2 := if Given(reason) then d1 + "\n" + reasonLine else d1;
    if Given(reason) {
      JoinSnoc("\n", l1, reasonLine);
    }
    assert d2 == Join("\n", l2);
    var detailsLine := DetailsLabel + (if details.Some? then details.value else "");
    var l3 := if Given(details) then l2 + [detailsLine] else l2;
    var d3 := if Given(details) then d2 + "\n" + detailsLine else d2;
    if Given(details) {
      JoinSnoc("\n", l2, detailsLine);
    }
    assert d3 == Join("\n", l3);
    assert ModlogLines(user, moderator, reason, details) == l3;
    if Given(reason) {
      AppendLine(d1, ReasonLabel, reason.value);
    }
    if Given(details) {
      AppendLine(d2, DetailsLabel, details.value);
    }
    assert ModlogDescription(user, moderator, reason, details) == d3;
  }

  lemma AppendLine(d: string, name: string, v: string)
    ensures d + ("\n" + name + v) == d + "\n" + (name + v)
  {
  }

  lemma ModlogLinesSingle(user: Option<string>, moderator: string, reason: Option<string>, details: Option<string>)
    requires user.Some? ==> '\n' !in user.value
    requires '\n' !in moderator
    requires reason.Some? ==> '\n' !in reason.value
    requires details.Some? ==> '\n' !in details.value
    ensures forall k :: 0 <= k < |ModlogLines(user, moderator, reason, details)| ==>
      "\n"[0] !in ModlogLines(user, moderator, reason, details)[k]
  {
    var lines := ModlogLines(user, moderator, reason, details);
    forall k | 0 <= k < |lines| ensures '\n' !in lines[k] {
      assert lines[k] in lines;
    }
  }

  // ---------------------------------------------------------- ticket list

  /** A modmail row as the ticket list reads it, with its submission time already rendered. */
  datatype Ticket = Ticket(messageId: int, author: string, time: string)

  function TicketLine(t: Ticket, serverId: string, channelId: string): string {
    "- " + t.time + " | [" + t.author + "](" + UrlDiscord + "/channels/" + serverId + "/" + channelId + "/"
      + IntToString(t.messageId) + ")"
  }

  function TicketLines(tickets: seq<Ticket>, serverId: string, channelId: string): (r: seq<string>)
    ensures |r| == |tickets|
    ensures forall i :: 0 <= i < |tickets| ==> r[i] == TicketLine(tickets[i], serverId, channelId)
  {
    seq(|tickets|, i requires 0 <= i < |tickets| => TicketLine(tickets[i], serverId, channelId))
  }

  /** `_modmail_create_ticket_list`: one line per ticket, each a link to the ticket's message. */
  method ModmailCreateTicketList(tickets: seq<Ticket>, serverId: string, channelId: string) returns (s: string)
    ensures s == Terminated(TicketLines(tickets, serverId, channelId), "\n")
  {
    s := "";
    var i := 0;
    while i < |tickets|
      invariant 0 <= i <= |tickets|
      invariant s == Terminated(TicketLines(tickets[..i], serverId, channelId), "\n")
    {
      var line := TicketLine(tickets[i], serverId, channelId);
      TicketLinesStep(tickets, i, serverId, channelId);
      s := s + line + "\n";
      i := i + 1;
    }
    assert tickets[..i] == tickets;
  }

  lemma TicketLinesStep(tickets: seq<Ticket>, i: nat, serverId: string, channelId: string)
    requires i < |tickets|
    ensures Terminated(TicketLines(tickets[..i + 1], serverId, channelId), "\n") ==
      Terminated(TicketLines(tickets[..i], serverId, channelId), "\n") + TicketLine(tickets[i], serverId, channelId) + "\n"
  {
    var front := TicketLines(tickets[..i], serverId, channelId);
    assert TicketLines(tickets[..i + 1], serverId, channelId) == front + [TicketLine(tickets[i], serverId, channelId)];
    TerminatedAppend(front, TicketLine(tickets[i], serverId, channelId), "\n");
  }

  /** The list read back line by line: one link per ticket, in order, when no field holds a newline. */
  lemma TicketListLines(tickets: seq<Ticket>, serverId: string, channelId: string)
    requires forall i :: 0 <= i < |tickets| ==> '\n' !in tickets[i].author && '\n' !in tickets[i].time
    requires '\n' !in serverId && '\n' !in channelId
    ensures Split(Terminated(TicketLines(tickets, serverId, channelId), "\n"), "\n") ==
      TicketLines(tickets, serverId, channelId) + [""]
  {
    var lines := TicketLines(tickets, serverId, channelId);
    forall i | 0 <= i < |lines| ensures "\n"[0] !in lines[i] {
      TicketLineSingle(tickets[i], serverId, channelId);
    }
    SplitTerminated(lines, "\n");
  }

  lemma TicketLineSingle(t: Ticket, serverId: string, channelId: string)
    requires '\n' !in t.author && '\n' !in t.time && '\n' !in serverId && '\n' !in channelId
    ensures '\n' !in TicketLine(t, serverId, channelId)
  {
    var n := IntToString(t.messageId);
    assert '\n' !in n by {
      var d := NatToString(if t.messageId < 0 then -t.messageId else t.messageId);
      assert forall j :: 0 <= j < |d| ==> IsDigit(d[j]);
    }
    assert '\n' !in UrlDiscord;
  }

  // ---------------------------------------------------------- role field

  /** Where the role string is cut before the remainder note is added. */
  const RoleFieldCut := 1009

  /** The role field after shortening: the kept mentions and the number announced as further roles. */
  datatype RoleField = RoleField(shown: string, more: int)

  /**
   * `_trim_role_string`: the first 1009 characters, cut at their last space,
   * and the total minus the mentions ('>') counted in those 1009 characters.
   */
  function TrimRoles(roles: string, numTotalRoles: int): (r: RoleField)
    ensures |r.shown| < RoleFieldCut && r.shown <= roles
    ensures ' ' in Take(roles, RoleFieldCut) ==>
      var t := Take(roles, RoleFieldCut);
      |r.shown| < |t| && t[|r.shown|] == ' ' && ' ' !in t[|r.shown| + 1..]
    ensures r.more + Count(r.shown, '>') + Count(Take(roles, RoleFieldCut)[|r.shown|..], '>') == numTotalRoles
  {
    var rolesShortened := Take(roles, RoleFieldCut);
    var numPrintedRoles := Count(rolesShortened, '>');
    var remainingRoles := numTotalRoles - numPrintedRoles;
    var cutIndex := RFind(rolesShortened, ' ');
    var kept := Take(rolesShortened, cutIndex);
    assert rolesShortened == kept + rolesShortened[|kept|..];
    CountAppend(kept, rolesShortened[|kept|..], '>');
    RFindFound(rolesShortened, ' ');
    RoleField(kept, remainingRoles)
  }

  lemma RFindFound(s: string, c: char)
    ensures c in s ==> RFind(s, c) >= 0
  {
    if c in s {
      var j :| 0 <= j < |s| && s[j] == c;
      assert RFind(s, c) >= j;
    }
  }

  /** The text of the shortened role field. */
  function RoleFieldText(f: RoleField): string {
    f.shown + " und " + IntToString(f.more) + " weitere."
  }

  /** The shortened field stays within Discord's 1024 characters for fewer than 100 further roles. */
  lemma RoleFieldFits(roles: string, numTotalRoles: int)
    requires 0 <= TrimRoles(roles, numTotalRoles).more < 100
    ensures |RoleFieldText(TrimRoles(roles, numTotalRoles))| <= 1024
  {
    var f := TrimRoles(roles, numTotalRoles);
    if f.more >= 10 {
      assert NatToString(f.more) == NatToString(f.more / 10) + [DigitChar(f.more % 10)];
    }
  }
}
