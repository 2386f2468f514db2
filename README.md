# SAM, the Discord bot of a university community, in Dafny

SAM serves a Discord server of students. The model covers the logic behind
its commands and event handlers:
- the owner's administration commands (posting embeds, loading and unloading
  Cogs, bot-only channels);
- temporary community, study and game rooms with numbered names;
- module roles, course roles and reaction roles;
- moderation (warnings and punishments, modmail tickets, purge and tag
  bounds, modlog embeds);
- suggestions and their status;
- the group exchange of university courses, u:find course listings and staff
  look-ups;
- the music queue;
- server information, duration parsing and the command logger;
- the database connector over its tables.

Discord itself is not modelled. A member is a set of role ids, and a channel
or message is a record of the attributes the code reads. The answers Discord
would send back arrive as parameters. Sending, editing and deleting messages
is modelled only where it changes state the code keeps: a table, a queue or a
member's roles. An object whose fields the code updates is a class:
- the database connector, whose tables are sequences and sets;
- the music Cog, with its queue and loop mode;
- a member;
- the two course menus.
Suggestions follow the code, not a general design for voting bots.
- No vote tally is stored. Votes are the message's reaction counts, read when
  a reaction arrives (`feedback.py:196-201`).
- A suggestion's status can be set to any status from any status
  (`feedback.py:173`). No order of transitions is enforced.

Pure helpers are functions, and every loop in the code is a method with
invariants. Each method is tied to a function of its inputs, and the
properties are proved about that function.

Each source file has its own module:

| module | file |
|---|---|
| `Admin` | `bot/admin/admin.py` |
| `Community` | `bot/community/community.py` |
| `Gaming` | `bot/gaming/gaming.py` |
| `Music` | `bot/music/music.py` |
| `RoleManagement` | `bot/role_management/role_management.py` |
| `CourseSelectionRoles` | `bot/role_management/course_selection.py` |
| `CourseSelectionUi` | `bot/ui/course_selection.py` |
| `Moderation` | `bot/moderation/moderation.py` |
| `Feedback` | `bot/feedback/feedback.py` |
| `University` | `bot/university/university.py` |
| `UfindRequests` | `bot/university/ufind_requests.py` |
| `Utility` | `bot/utility/utility.py` |
| `UtilityTimeParsing` | `bot/utility/time_parsing.py` |
| `UtilTimeParsing` | `bot/util/time_parsing.py` |
| `Logger` | `bot/logger/logger.py` |
| `Persistence` | `bot/persistence/database_connector.py` |
| `Queries` | `bot/persistence/queries.py` |
| `Constants` | `bot/constants.py` |

The enums live in `Enums`, and the string and Python helpers they all use in
`Text` and `Wrappers`.

## Model

| member | source | states |
|---|---|---|
| Admin.EmbedParts | bot/admin/admin.py:81-85 | without a '\|' the title is empty and the description is the whole text; with exactly one '\|' title and description rejoin to the text; two or more make the unpacking fail with a ValueError |
| Admin.IsPastebinLink | bot/admin/admin.py:486-496 | true exactly when the text contains "pastebin.com" and neither brace |
| Admin.RawUrl | bot/admin/admin.py:512-515 | a URL containing "raw" is kept; otherwise "raw/" is inserted right after the first ".com/", or after the fourth character when there is none; the result always contains "raw" |
| Admin.RawUrlIdempotent | bot/admin/admin.py:512-515 | rewriting a rewritten URL changes nothing |
| Admin.CogName | bot/admin/admin.py:524-542 | the result ends with "Cog" and is the capitalized name without its trailing "cog" (in any case), followed by "Cog" |
| Admin.CogNameCases | bot/admin/admin.py:535-540 | the three branches: a bare "cog" becomes "Cog"; a longer name ending in "cog" keeps its capitalized stem; any other name ends in neither "Cog" nor "cog" after capitalizing |
| Admin.CogNameIdempotent | bot/admin/admin.py:524-542 | normalizing a normalized name changes nothing |
| Admin.ExtensionModule | bot/admin/admin.py:260-263 | the lookup succeeds exactly when the normalized name is a key of INITIAL_EXTNS, and then yields that key's module; otherwise KeyError |
| Admin.RoleManagementUnreachable | bot/admin/admin.py:260-263 | no typed name normalizes to "RoleManagementCog", so its module is never loaded, unloaded or reloaded by name |
| Admin.OtherModulesDiffer | bot/constants.py:11-17 | no other key of INITIAL_EXTNS maps to the role-management module |
| Admin.ExtensionModuleIgnoringCase | bot/admin/admin.py:260-263 | (corrected) the key is compared ignoring letter case, and a result is the module of a key equal to the normalized name up to case |
| Admin.LowerCogName | bot/admin/admin.py:524-542 | a name ending in "cog" in any case normalizes to itself up to case |
| Admin.ExtensionNamesDistinctIgnoringCase | bot/constants.py:11-17 | the keys of INITIAL_EXTNS differ even when case is ignored |
| Admin.EveryCogReachableIgnoringCase | bot/admin/admin.py:260-263 | (corrected) typing any Cog's own name, RoleManagementCog included, yields that Cog's module |
| Admin.CreateCogsEmbedString | bot/admin/admin.py:545-566 | the string is one newline-terminated line per key of INITIAL_EXTNS, in order |
| Admin.CogLineStatus | bot/admin/admin.py:559-564 | a line starts with the available emoji exactly when its Cog is loaded |
| Admin.CogsOverviewLines | bot/admin/admin.py:545-566 | split at the newlines, the string gives seven lines and a final empty piece; line i belongs to the i-th Cog and shows the available emoji exactly when that Cog is loaded |
| Admin.BotOnly | bot/admin/admin.py:459-471 | the target is the given channel, otherwise the current one; its bot-only flag flips, no other channel changes, and the title names the new mode |
| Admin.OnMessageDeletes | bot/admin/admin.py:482-483 | a message is deleted exactly when its author is not a bot and its channel is bot-only |
| Community.DigitRun | bot/community/community.py:297 | the length of the leading run of ASCII digits: every character before it is a digit and the one at it is not |
| Community.TagFrom | bot/community/community.py:297 | the leftmost position at or after `from` where `[#`, digits and `]` start, or none when there is none |
| Community.FindTag | bot/community/community.py:124 | `re.search` of `\[#\d+]`: the leftmost match, and no match exactly when no position has one |
| Community.NextNumber | bot/community/community.py:297-298 | one more than the first channel number of the name, or 2 without one; at least 1 |
| Community.LastContaining | bot/community/community.py:294-296 | the last voice channel whose name contains the name; none exactly when no voice channel name contains it (StopIteration) |
| Community.DetermineChannelNumber | bot/community/community.py:281-303 | no suffix exactly when no voice channel name contains the name; otherwise the suffix " [#n]" with n the next number after the last such channel's name |
| Community.SuffixedNumber | bot/community/community.py:297-303 | a name without a number followed by " [#n]" has its leftmost number at the suffix, and its digits are those of n |
| Community.FirstRepeatIsTwo | bot/community/community.py:298 | the first repeat of a name without a number is numbered 2 |
| Community.NumberingContinues | bot/community/community.py:296-303 | after a room numbered n, the next room with the same name is numbered n + 1 |
| Community.Numbered | bot/community/community.py:128-133 | the name, with the suffix when it is in use, cut to 100 characters; the result is never longer than 100 and starts with the name when the name fits |
| Community.NumberedFresh | bot/community/community.py:128-133 | an unused name that fits is kept unchanged |
| Community.NumberedRepeat | bot/community/community.py:128-133 | a name in use whose suffixed form fits gets the next free number |
| Community.ChooseNameAndLimit | bot/community/community.py:111-121 | a sole numeric argument is the limit and the room is named after the member; a sole non-numeric argument is the name with the fallback limit; otherwise the given name (or the member's default) and the given limit |
| Community.NameRoom | bot/community/community.py:123-133 | a number the member typed is removed, then the name is numbered and cut |
| Community.CreateCommunityRoom | bot/community/community.py:103-133 | RuntimeWarning exactly when the category holds 20 or more voice channels; ValueError exactly when it does not and a given limit lies outside 1..99; NotImplementedError exactly when neither holds and the member owns a room; otherwise the room's name is at most 100 characters and is the numbered requested name, and its limit is the requested one with 99 as fallback |
| Community.NumericNameSkipsLimitCheck | bot/community/community.py:105-116 | (as written) the sole argument "150" passes the range check and becomes the limit 150 |
| Community.CreateCommunityRoomChecked | bot/community/community.py:103-133 | (corrected) the same checks, with the range check also applied to the limit derived from the name, so no created room has a limit outside 1..99 |
| Community.RemoveNonWord | bot/community/community.py:169 | `re.sub(r"[^\w\s-]", "", s)`: keeps only word characters, whitespace and '-', each taken from the input, and keeps a text made only of those |
| Community.SpacesToDashes | bot/community/community.py:170 | each whitespace character becomes '-', every other character stays |
| Community.CommunityTextNameChars | bot/community/community.py:169-170 | the derived text-channel name is no longer than the voice name and holds only word characters and '-', no whitespace and no upper-case letter |
| Community.CommunityTextNameIdempotent | bot/community/community.py:169-170 | deriving the name from a derived name changes nothing |
| Community.FirstNamed | bot/community/community.py:171 | the first text channel with the name; none exactly when no text channel has it |
| Community.DeleteCommunityRoom | bot/community/community.py:166-174 | something happens exactly when the old channel is in one of the two room categories, the member left it and it is empty; then the voice channel and the first text channel with the derived name are deleted, or the lookup fails (StopIteration) when there is no such text channel |
| Community.OccupiedRoomKept | bot/community/community.py:166-167 | a room with members left in it is kept |
| Music.QueuedAfter | bot/music/music.py:63-67 | (as written) the new songs end the queue; the old queue precedes them unless it held exactly 300 songs, in which case as many old songs as there are new ones were dropped from its front, giving 300 again when at most 300 are added |
| Music.QueueOvershootsLimit | bot/music/music.py:63-67 | (as written) a queue of 299 songs plus a playlist of two holds 301 songs |
| Music.QueueOverLimitGrows | bot/music/music.py:63-67 | (as written) once over 300, the queue is never trimmed again and grows by every playlist |
| Music.CappedQueue | bot/music/music.py:63-67 | (corrected) at most 300 songs; the old and new songs when they fit, otherwise exactly 300; always the newest songs of the combined queue, the whole playlist included when it has at most 300 songs |
| Music.LStripC0 | bot/music/music.py:162 | urlsplit's first step: control characters and spaces are removed from the start, a suffix of the URL remains |
| Music.RemoveUnsafe | bot/music/music.py:162 | urlsplit's second step: tab, CR and LF are removed everywhere, and a URL without them is kept |
| Music.NetlocOf | bot/music/music.py:162-163 | the network location after "//" runs up to the first '/', '?' or '#' and contains none of them |
| Music.Netloc | bot/music/music.py:162-163 | the network location urlparse gives for the URL contains no '/', '?' or '#' |
| Music.DomainIsYoutube | bot/music/music.py:161-165 | after removing a leading "www.", the domain is in the list of platforms exactly when the network location is youtube.com or www.youtube.com |
| Music.SupportedUrlHosts | bot/music/music.py:154-166 | a URL is accepted exactly when its network location is youtube.com or www.youtube.com; any other raises BadArgument |
| Music.AfterSchemeSplits | bot/music/music.py:162 | a valid scheme and its ':' are split off and the rest is kept |
| Music.NetlocOfHost | bot/music/music.py:162 | `//host` followed by a path, query or fragment yields exactly the host |
| Music.NetlocOfComposedUrl | bot/music/music.py:162-163 | for `scheme://host` followed by a path, query or fragment, the network location is exactly the host |
| Music.MusicCog.constructor | bot/music/music.py:17-25 | the queue starts empty and loop mode off |
| Music.MusicCog.QueueSongs | bot/music/music.py:63-67 | (as written) the queue becomes QueuedAfter of the old queue and the new songs |
| Music.MusicCog.QueueSongsCapped | bot/music/music.py:63-67 | (corrected) the queue becomes CappedQueue of the old queue and the new songs and never holds more than 300 |
| Music.MusicCog.LoopMusic | bot/music/music.py:88-95 | loop mode flips exactly when the bot is playing in the author's voice channel; an author outside voice chat while it plays is an AttributeError; otherwise nothing changes |
| Music.MusicCog.StopMusic | bot/music/music.py:99-109 | when the bot is connected to the author's voice channel, the queue is cleared and loop mode switched off; an author outside voice chat while it is connected is an AttributeError; otherwise nothing changes; the queue bound is preserved |
| Gaming.NameGameRoom | bot/gaming/gaming.py:65-70 | the requested name numbered and cut to 100 characters; a typed number is not removed |
| Gaming.CreateGamingRoom | bot/gaming/gaming.py:47-70 | RuntimeWarning exactly when the category has reached the gaming channel limit; InvalidArgument exactly when it has not and a given limit exceeds 99; NotImplementedError exactly when neither holds and the member owns a room; otherwise the numbered requested name and the requested limit, a sole non-numeric argument meaning no limit |
| Gaming.NumericNameSkipsGamingCheck | bot/gaming/gaming.py:49-60 | (as written) the sole argument "150" passes the check and becomes the limit 150, which the check would refuse |
| Gaming.CreateGamingRoomChecked | bot/gaming/gaming.py:47-70 | (corrected) the same checks, with the limit check also applied to a limit derived from the name, so no created room has a limit above 99 |
| Gaming.GamingTextNameChars | bot/gaming/gaming.py:153 | the derived text-channel name has no space, no ']' and no upper-case letter; every character comes from the lower-cased voice name or is '-' |
| Gaming.DeleteGamingRoom | bot/gaming/gaming.py:150-157 | something happens exactly when the old channel is in the gaming category, the member left it and it is empty; then the voice channel and the first text channel with the derived name are deleted, or the lookup fails when there is none |
| RoleManagement.Member.constructor | bot/role_management/role_management.py:150 | a member holds exactly the given roles |
| RoleManagement.Toggle | bot/role_management/role_management.py:150-155 | a held role is removed and an unheld one added; no other role changes |
| RoleManagement.ToggleTwice | bot/role_management/role_management.py:344-352 | toggling twice restores the set, so running `unique` twice leaves a message's flag as it was |
| RoleManagement.ToggleEachOthers | bot/role_management/role_management.py:138-157 | toggling a list of roles leaves every other role as it was |
| RoleManagement.ToggleEachDistinct | bot/role_management/role_management.py:138-157 | toggling distinct roles flips exactly those roles |
| RoleManagement.ModuleRole | bot/role_management/role_management.py:142-148 | a module resolves exactly when its upper-cased name is a role and that role is whitelisted, and then to that role |
| RoleManagement.ToggleAll | bot/role_management/role_management.py:138-157 | each module lands on one list, so the three lists together are as long as the module list |
| RoleManagement.ResolvedRoles | bot/role_management/role_management.py:142-148 | the roles the modules resolve to, in order; all of them whitelisted |
| RoleManagement.ToggleAllRoles | bot/role_management/role_management.py:138-157 | the loop toggles exactly the resolved roles, in order |
| RoleManagement.ToggleAllKeepsOthers | bot/role_management/role_management.py:145-148 | unknown and non-whitelisted names change no role: a role no module resolves to is neither added nor removed |
| RoleManagement.ToggleAllNames | bot/role_management/role_management.py:140-157 | every entry of the three lists is a module name, upper-cased |
| RoleManagement.ToggleAllPlacement | bot/role_management/role_management.py:138-157 | with distinct upper-cased names every module lands on exactly one list: the error list exactly when it does not resolve; and with distinct resolved roles it is added exactly when the member did not hold its role, removed exactly when they did |
| RoleManagement.ToggleModules | bot/role_management/role_management.py:138-157 | the member's new roles and the three lists are those of ToggleAll on the member's old roles |
| RoleManagement.ToggleModule | bot/role_management/role_management.py:127-163 | outside the role channel no role changes and no overview is sent; otherwise the distinct words are toggled as ToggleAll says and the member gets the overview of the three lists |
| RoleManagement.CaseVariantsToggledTwice | bot/role_management/role_management.py:136-155 | (as written) "abc" and "ABC" survive the de-duplication, so the role ABC is toggled once per variant; with the member's roles updated at once, it ends where it started and the overview lists ABC as both added and removed |
| RoleManagement.ToggleModuleByUpperName | bot/role_management/role_management.py:127-163 | (corrected) with the duplicates removed after upper-casing, every word given lands on exactly one list: the error list exactly when it does not resolve |
| RoleManagement.ModuleLines | bot/role_management/role_management.py:462-471 | one "- NAME" line per module, in order |
| RoleManagement.ModuleEmbedOf | bot/role_management/role_management.py:436-473 | the title starts with ":x: " exactly when some module failed; the description is the success sentence without errors, and otherwise the problem sentence followed by the failed names joined with ", " |
| RoleManagement.FieldValueLines | bot/role_management/role_management.py:462-471 | a non-empty field, split at the newlines, gives one "- NAME" line per module and a final empty piece |
| RoleManagement.EmptyFieldShowsNone | bot/role_management/role_management.py:458-471 | an empty list shows "- Keine", and a non-empty one does not |
| RoleManagement.BuildField | bot/role_management/role_management.py:462-471 | the loop's string is the field value of its list |
| RoleManagement.CreateEmbedModuleRoles | bot/role_management/role_management.py:436-473 | the embed built equals ModuleEmbedOf of the three lists |
| RoleManagement.EmbedTitle | bot/role_management/role_management.py:448-456 | the title is the icon followed by the heading |
| RoleManagement.AddReactionRoleCommand | bot/role_management/role_management.py:254-265 | a message outside the role channel, then an emoji already on the message, are refused with no change; otherwise the row is appended and the emoji added to the reactions |
| RoleManagement.RemoveReactionRoleCommand | bot/role_management/role_management.py:281-295 | a message outside the role channel, then an emoji not on the message, are refused with no change; otherwise the emoji's row and reactions go, and the message leaves its uniqueness group exactly when that was its only reaction |
| RoleManagement.ClearReactionRolesCommand | bot/role_management/role_management.py:311-325 | outside the role channel nothing changes; otherwise all rows and the uniqueness group of the message go; "no reaction roles" is the reply exactly when it had no rows, and its reactions are cleared only when it had some |
| RoleManagement.ToggleReactionRolesExclusiveness | bot/role_management/role_management.py:340-352 | a message without reactions is refused with no change; otherwise its uniqueness flag flips and no other message's flag changes |
| CourseSelectionRoles.CourseRoleIn | bot/role_management/course_selection.py:23-24 | the role found is the one stored for the first course and known to the server; none when either is missing |
| CourseSelectionRoles.CourseSelect.constructor | bot/role_management/course_selection.py:10-12 | exactly one option can be selected |
| CourseSelectionRoles.CourseSelect.Callback | bot/role_management/course_selection.py:14-33 | only the first selected course counts; a held role is removed with the "entfernt" reply, an unheld one added with the "hinzugefügt" reply; without a known role, adding fails with AttributeError and nothing changes |
| CourseSelectionUi.MissingOf | bot/ui/course_selection.py:30-35 | the selected courses without a role (None or 0), in the order selected |
| CourseSelectionUi.MappedRolesOf | bot/ui/course_selection.py:30-42 | the roles of the other selected courses; with the missing ones they account for every selection |
| CourseSelectionUi.SelectCoursesFails | bot/ui/course_selection.py:37-42 | the loop fails exactly when some selected course's role is unknown to the server |
| CourseSelectionUi.SelectCoursesSucceeds | bot/ui/course_selection.py:30-42 | without a failure the member's roles are toggled once per mapped course, in order, and the missing list is exactly the unmapped courses |
| CourseSelectionUi.SelectCoursesKeepsOthers | bot/ui/course_selection.py:30-42 | a role that belongs to no selected course is left alone, even when the loop fails |
| CourseSelectionUi.FailureStops | bot/ui/course_selection.py:37-42 | after the failure the rest of the selection changes nothing |
| CourseSelectionUi.RolesChangedIffMapped | bot/ui/course_selection.py:44 | `have_roles_changed` holds exactly when some selected course has a role |
| CourseSelectionUi.ResponseFor | bot/ui/course_selection.py:48-60 | success exactly when nothing is missing; a warning exactly when something but not everything is; an SOS exactly when everything is |
| CourseSelectionUi.RelevantOptions | bot/ui/course_selection.py:51 | exactly the options whose value is a missing course |
| CourseSelectionUi.ReplyFor | bot/ui/course_selection.py:48-64 | the moderators are notified exactly when something is missing, and the notice lists exactly the relevant options |
| CourseSelectionUi.CourseSelect.constructor | bot/ui/course_selection.py:13-16 | between one and all of the options can be selected |
| CourseSelectionUi.CourseSelect.Callback | bot/ui/course_selection.py:18-66 | the member's roles end as SelectCourses says; AttributeError exactly when it fails; otherwise the reply is ReplyFor of the missing courses |
| Moderation.CogCheck | bot/moderation/moderation.py:51-54 | `report` and `modmail` are open to everyone; every other command exactly to moderators |
| Moderation.LowerAll | bot/moderation/moderation.py:93 | each requested tag lower-cased, in order |
| Moderation.TagThread | bot/moderation/moderation.py:87-97 | outside a forum post the invocation is deleted; inside one, more than five tags in all refuse the request; otherwise exactly the available tags whose lower-cased name matches a lower-cased request are added |
| Moderation.TagThreadIgnoresCase | bot/moderation/moderation.py:93-94 | requests that agree up to letter case add the same tags |
| Moderation.PurgeAmount | bot/moderation/moderation.py:839-841 | an amount is accepted exactly when it lies between 1 and the purge limit, otherwise BadArgument |
| Moderation.PurgeLimit | bot/moderation/moderation.py:847 | the number of messages asked for is never below the amount |
| Moderation.ReportedPurgeCount | bot/moderation/moderation.py:848 | the announced count never exceeds the deleted messages |
| Moderation.PurgeReportsAmount | bot/moderation/moderation.py:845-848 | when the channel holds enough messages, the announcement names exactly the amount requested, in the invoking channel or another |
| Moderation.PurgeReportBounded | bot/moderation/moderation.py:847-848 | with fewer messages available the announcement never exceeds the amount |
| Moderation.PunishmentFor | bot/moderation/moderation.py:1029-1033 | exactly the three warning levels punish: a one-week mute, a two-week ban, a permanent ban |
| Moderation.ExpiryWeeks | bot/moderation/moderation.py:1048 | warnings stay on record at least four weeks, always whole multiples of four |
| Moderation.ExpiryWeeksGrow | bot/moderation/moderation.py:1048 | more warnings never expire sooner, and from the first warning on each further one adds time |
| Moderation.WarningCount | bot/moderation/moderation.py:1028 | no rows count as zero warnings, otherwise the number of rows |
| Moderation.CheckWarnings | bot/moderation/moderation.py:1027-1059 | the expiry job is removed exactly when no warning is left; a punishment is imposed exactly when a warning was added and the count hits a level; the expiry is the count's weeks from now after an addition, and moved earlier by the weeks of one warning after a removal |
| Moderation.RemovalNeverPunishes | bot/moderation/moderation.py:1037 | removing a warning never punishes |
| Moderation.ModmailTarget | bot/moderation/moderation.py:1078-1090 | the done reaction closes a ticket, the assign reaction takes it in progress, removing any reaction reopens it |
| Moderation.ChangeModmailStatusAsWritten | bot/moderation/moderation.py:1061-1095 | (as written) the assign reaction raises AttributeError and stores nothing; every other event stores the status ModmailTarget names |
| Moderation.AssignNeverStored | bot/moderation/moderation.py:1083-1084 | (as written) assigning a ticket always fails and leaves the tickets as they were |
| Moderation.ChangeModmailStatus | bot/moderation/moderation.py:1061-1095 | (corrected) the ticket gets the status the reaction asks for and no other ticket changes; the title names the status; the assign reaction is cleared when the ticket is closed and restored when the done reaction is taken away |
| Moderation.ReactionRemovalReopens | bot/moderation/moderation.py:1087-1088 | removing a reaction after adding one reopens the ticket |
| Moderation.ModlogLines | bot/moderation/moderation.py:1233-1238 | the lines a modlog description should hold; the moderator's is always among them |
| Moderation.ModlogDescriptionLines | bot/moderation/moderation.py:1233-1238 | read back at the newlines, the description holds the affected member's line when given, the moderator's, then the reason's and the details' when given |
| Moderation.ModlogDescriptionJoin | bot/moderation/moderation.py:1233-1238 | the description is those lines joined with newlines |
| Moderation.TicketLines | bot/moderation/moderation.py:1450-1455 | one link line per ticket, in order |
| Moderation.ModmailCreateTicketList | bot/moderation/moderation.py:1435-1457 | the loop's string is the ticket lines, each ended by a newline |
| Moderation.TicketListLines | bot/moderation/moderation.py:1435-1457 | split at the newlines, the list gives back one link per ticket in order and a final empty piece |
| Moderation.TrimRoles | bot/moderation/moderation.py:1502-1519 | the kept mentions are a prefix of the roles shorter than 1009 characters, cut at the last space of the first 1009; the announced further roles plus the '>' counted in the kept and the dropped part of the cut give the total |
| Moderation.RoleFieldFits | bot/moderation/moderation.py:1502-1519 | with fewer than 100 further roles the field fits Discord's 1024 characters |
| Feedback.SuggestionTitle | bot/feedback/feedback.py:274 | the title is "Vorschlag #" followed by the suggestion's number, and holds no dash |
| Feedback.SuggestionTitleInjective | bot/feedback/feedback.py:274 | different suggestions get different titles |
| Feedback.StatusSuffix | bot/feedback/feedback.py:247-258 | every status suffix begins with " -" |
| Feedback.BaseTitle | bot/feedback/feedback.py:246 | the base title is a prefix of the title holding no " -" |
| Feedback.BaseTitleIsFirstPart | bot/feedback/feedback.py:246 | the base title is the first piece of the title split at " -" |
| Feedback.RefreshTitle | bot/feedback/feedback.py:246-258 | the refreshed title is the base title followed by the suffix of the new status |
| Feedback.BaseOfSuffixed | bot/feedback/feedback.py:246 | the base of a base title with a suffix appended is that base title |
| Feedback.RefreshTitleNoStacking | bot/feedback/feedback.py:246-258 | status changes never stack: two refreshes give the title of the second alone |
| Feedback.RefreshKeepsNumber | bot/feedback/feedback.py:246-258 | a refreshed suggestion keeps its number: its title is the original one plus one suffix |
| Feedback.RefreshSuggestionEmbed | bot/feedback/feedback.py:242-258 | the fields are the one reason field exactly when a non-empty reason is given, else none; the title is refreshed with the new status |
| Feedback.ManageSuggestions | bot/feedback/feedback.py:48-53 | exactly one row is appended, under an id no earlier row has, for the author with the posted message and the undecided status; every earlier row is kept; the embed is titled with its number |
| Feedback.ChangeSuggestionStatus | bot/feedback/feedback.py:173-180 | an unknown id raises BadArgument and changes nothing; otherwise the suggestion's rows get the new status, no other row changes, and the embed is refreshed with that status |
| Feedback.ClearMarginIsHalfTotal | bot/feedback/feedback.py:200-201 | the integer comparison the model uses agrees with the source's comparison against half the total |
| Feedback.VoteRecolor | bot/feedback/feedback.py:205-212 | members like a suggestion exactly when its up votes exceed the limit and the down votes, with a gap of more than half the votes; a dislike needs down votes over the limit and the same gap |
| Feedback.DislikeNeedsMoreDown | bot/feedback/feedback.py:209-210 | a dislike always has more down votes than up votes |
| Feedback.VoteRecolorSwapped | bot/feedback/feedback.py:205-212 | swapping the votes swaps like and dislike |
| Feedback.SuggestionReactionAdd | bot/feedback/feedback.py:194-212 | the colour changes only for an up or down vote by a member who is not a bot, in the suggestion channel, on an undecided suggestion, and then as VoteRecolor says |
| University.ParseInts | bot/university/university.py:164 | every part converted, or nothing exactly when some part is not an integer |
| University.ParseGroups | bot/university/university.py:164 | one group per comma-separated part, or nothing when a part is not an integer |
| University.GroupsRoundTrip | bot/university/university.py:164 | any non-empty list of groups written with commas parses back to itself |
| University.EmptyPartRejected | bot/university/university.py:164 | an empty list and a trailing comma are rejected |
| University.ValidateExchange | bot/university/university.py:160-170 | SyntaxError exactly when the channel is not a course channel or a requested group is not an integer; ValueError exactly when the offered group is requested; otherwise the non-empty parsed groups, without the offered one |
| University.NotifiedPartnersMatch | bot/university/university.py:180-187 | every candidate notified holds an offer for the course that matches the new offer in both directions |
| University.Exchange | bot/university/university.py:147-187 | the command fails exactly when a check fails or the user already has an offer for the course, and then stores nothing and reports that error; otherwise it succeeds, the offer with its message id and one request per group are stored, and the candidates notified are exactly the matching offers |
| University.RemoveExchange | bot/university/university.py:200-210 | a TypeError exactly when the offer's message id was never set, and then nothing changes; without an offer, or with the falsy id 0, nothing changes; with a truthy message id the offer and its requests go and that id is returned for deleting the post |
| University.CourseSegment | bot/university/university.py:538 | a segment exists exactly when the channel name holds the separator |
| University.CapitalizeAll | bot/university/university.py:541 | each word capitalised, in order |
| University.ParseCourse | bot/university/university.py:526-541 | a course name exists exactly when the channel name holds the separator |
| University.LowerJoinCapitalized | bot/university/university.py:541 | capitalising the words changes only letter case |
| University.ParseCourseMeaning | bot/university/university.py:526-541 | the course name holds no dash; its words are the capitalised words of the segment after the separator, and up to case it is that segment with dashes read as spaces |
| University.StaffTitle | bot/university/university.py:602-623 | a title exists exactly when the title element does |
| University.StaffTitleParts | bot/university/university.py:617-623 | the title is the name line followed by ", " and the post exactly when the post is non-empty |
| University.Contact | bot/university/university.py:626-650 | a contact block exists exactly when the contact element does |
| University.ContactIsTerminatedHead | bot/university/university.py:639-648 | the block is its lines, each ended by a newline, and then the vCard link |
| University.ContactHasLines | bot/university/university.py:639-648 | read back line by line the block holds email, phone, the mobile number only when there is one, fax and the vCard link: four or five lines |
| University.EncodeParensNoParens | bot/university/university.py:697 | the encoded publications link holds no parenthesis |
| University.Weblinks | bot/university/university.py:676-700 | links exist exactly when the staff id does |
| University.WeblinksTerminated | bot/university/university.py:691-698 | the links are the u:find line and the present homepage and publications lines, each ended by a newline |
| University.WeblinksHaveLines | bot/university/university.py:691-698 | split at the newlines the field gives back each link on a line of its own, the u:find link first |
| University.AssignmentLines | bot/university/university.py:716-717 | two lines per assignment in order: its name, then its role as a list item |
| University.Assignments | bot/university/university.py:703-719 | no field for a missing or empty element; otherwise the loop's string is the assignment lines, each ended by a newline |
| University.AssignmentsHaveLines | bot/university/university.py:716-719 | split at the newlines the field gives back the assignment lines |
| University.CourseLines | bot/university/university.py:739-750 | never more lines than courses |
| University.CourseLinesMeaning | bot/university/university.py:739-750 | every line is that of a listed course, and every listed course (neither LP nor a Bachelor or Master seminar) has its line |
| University.ListedSemesters | bot/university/university.py:736-753 | at most the first two semesters are listed, exactly two when there are that many |
| University.FitTeaching | bot/university/university.py:758-766 | the field ends with the link, and is the whole body and link when they fit 1024 characters |
| University.TeachingWithinLimit | bot/university/university.py:758-766 | the field never exceeds 1024 characters |
| University.TeachingCutAtLine | bot/university/university.py:758-765 | a shortened field keeps a prefix of the body ending at a line break, with no line break lost between it and the cut, then the indicator and the link |
| University.AppendListedCourses | bot/university/university.py:739-750 | the inner loop appends the listed courses' lines, each ended by a newline |
| University.TeachingBody | bot/university/university.py:735-753 | the outer loop's string is the header and listed course lines of the first two semesters |
| University.Teaching | bot/university/university.py:722-767 | no field for a missing element; otherwise the body of the first two semesters fitted with the link |
| UfindRequests.LecturerSeparators | bot/university/ufind_requests.py:47-50 | without '\|' in the names the lecturer part holds one separator per lecturer |
| UfindRequests.Shorten | bot/university/ufind_requests.py:52 | a description stays within 100 characters; a short one is kept as is, a longer one keeps its first 97 characters and ends with "..." |
| UfindRequests.Deduplicated | bot/university/ufind_requests.py:32-38 | the kept courses are never more than the courses given |
| UfindRequests.CourseOptions | bot/university/ufind_requests.py:32-54 | one option per kept course |
| UfindRequests.DeduplicatedIsFirstOccurrences | bot/university/ufind_requests.py:32-38 | the kept courses are exactly the first course of each id, in input order |
| UfindRequests.DeduplicatedUnique | bot/university/ufind_requests.py:35-38 | no id is offered twice |
| UfindRequests.DeduplicatedComplete | bot/university/ufind_requests.py:32-38 | every course's id is offered |
| UfindRequests.FirstWithId | bot/university/ufind_requests.py:35-38 | every course has a first course with the same id at or before it |
| UfindRequests.BuildDescription | bot/university/ufind_requests.py:43-52 | the loop's description is type and ECTS followed by one " \| first last" per lecturer, shortened |
| UfindRequests.GetCourseOptions | bot/university/ufind_requests.py:29-56 | the loop's options are those of the first course of each id, in input order |
| Utility.BoostLevelCap | bot/utility/utility.py:266-281 | "/2" below the first cap, "/7" and "/14" between the caps, nothing once the last cap is reached |
| Utility.BoostLevelCapIsNextCap | bot/utility/utility.py:266-281 | the cap shown is the smallest cap above the boost count, and none is shown exactly when every cap is reached |
| Utility.ChannelCounters | bot/utility/utility.py:284-298 | text and voice channels, and in front their sum |
| Utility.CountBots | bot/utility/utility.py:310 | the bots are never more than the members; none without bots, all when every member is one |
| Utility.CountBotsAppend | bot/utility/utility.py:310 | counting bots adds up over concatenated member lists |
| Utility.MemberCounters | bot/utility/utility.py:301-312 | all members, bots, then humans; bots and humans add up to all members |
| Utility.Lookup | bot/utility/utility.py:357 | a name is found exactly when some pair has the key, and it is that pair's name |
| Utility.FeatureName | bot/utility/utility.py:328-357 | a known feature shows its German name, any other feature itself |
| Utility.FeatureLines | bot/utility/utility.py:356-358 | one bullet line per feature, in order |
| Utility.GenerateFeaturesList | bot/utility/utility.py:315-360 | the loop's string is the feature lines, each ended by a newline, and the "none" note exactly when there are no features |
| Utility.FeaturesTextNotNone | bot/utility/utility.py:324-360 | a non-empty list never reads as the "none" note: it ends with a newline |
| Utility.FeaturesTextLines | bot/utility/utility.py:354-360 | read back line by line the text lists the features in input order, one per line |
| Utility.BuildServerinfoStrings | bot/utility/utility.py:243-263 | the six field texts: owner, level and boosts with the cap, features, the member counters, the channel counters and the role count |
| UtilTimeParsing.Decompose | bot/util/time_parsing.py:7-10 | the weeks, days, hours, minutes and seconds add back up to the duration, each below its radix apart from the weeks, and the weeks are negative exactly when the duration is |
| UtilTimeParsing.Phrase | bot/util/time_parsing.py:13-20 | a time unit is its count followed by the singular unit name for one and the plural one otherwise |
| UtilTimeParsing.PrettyStringDuration | bot/util/time_parsing.py:6-22 | a duration under a minute renders as the empty string |
| UtilTimeParsing.Decode | bot/util/time_parsing.py:6-22 | a reference reader of the rendered form: when it succeeds it gives four counts |
| UtilTimeParsing.DecodePretty | bot/util/time_parsing.py:6-22 | reading the rendered string back gives exactly the weeks, days, hours and minutes of the duration: nothing but the seconds is lost |
| UtilTimeParsing.PrettySameMinutes | bot/util/time_parsing.py:6-22 | two durations render the same exactly when they agree in whole minutes |
| UtilTimeParsing.FutureTimestamp | bot/util/time_parsing.py:25-34 | a missing or non-positive parse is a ValueError; otherwise the timestamp lies the parsed seconds after now, paired with their rendering |
| UtilityTimeParsing.PrettyStringDuration | bot/utility/time_parsing.py:7-36 | a missing or non-positive parse is a ValueError; otherwise the rendering of the shared helper |
| UtilityTimeParsing.ShortDurationRendersEmpty | bot/utility/time_parsing.py:18-36 | a valid duration under a minute renders as the empty string |
| UtilityTimeParsing.FutureTimestamp | bot/utility/time_parsing.py:39-54 | a missing or non-positive parse is a ValueError; otherwise the timestamp lies the parsed seconds after now |
| UtilityTimeParsing.SameValidation | bot/utility/time_parsing.py:18-19 | the two time-parsing modules accept exactly the same durations |
| Logger.AnySubcommandPrefix | bot/logger/logger.py:91 | true exactly when the message starts with some lower-cased subcommand name |
| Logger.Normalized | bot/logger/logger.py:85-86 | the message without the prefix, lower-cased, keeps the length of the rest |
| Logger.IsDeepestSubcommand | bot/logger/logger.py:74-92 | a plain command, and a group without subcommands, is always deepest; a group is deepest exactly when the normalised message starts with none of its subcommands |
| Logger.DeepestIgnoresCase | bot/logger/logger.py:86 | messages equal up to letter case get the same answer |
| Logger.CommandLog | bot/logger/logger.py:59-71 | the command always runs; an application command is always logged, a text command only when valid and the deepest subcommand, with user and channel name |
| Logger.GroupDefersToSubcommand | bot/logger/logger.py:63-91 | a group invoked with one of its subcommands logs nothing itself |
| ModmailStatusEnum.Value | bot/moderation/modmail_status.py:8-10 | the stored values are 1 to 3 |
| ModmailStatusEnum.FromValue | bot/moderation/modmail_status.py:8-10 | a value names a status exactly when it lies between 1 and 3, and that status has the value |
| ModmailStatusEnum.ValueRoundTrip | bot/moderation/modmail_status.py:6-10 | a status read back from its value is itself |
| SuggestionStatusEnum.Value | bot/feedback/suggestion_status.py:8-12 | the stored values are 0 to 4 |
| SuggestionStatusEnum.FromValue | bot/feedback/suggestion_status.py:8-12 | a value names a status exactly when it lies between 0 and 4, and that status has the value |
| SuggestionStatusEnum.ValueRoundTrip | bot/feedback/suggestion_status.py:6-12 | a status read back from its value is itself |
| SelectionEmojis.Keycap | bot/utility/selection_emoji.py:11-19 | the keycap emoji of a digit: the digit, the variation selector and the keycap mark |
| SelectionEmojis.ToList | bot/utility/selection_emoji.py:22-25 | ten emojis: the keycaps of 1 to 9, then the ten emoji |
| SelectionEmojis.IndexOf | bot/university/university.py:143 | a found index points at the emoji in the list; none is found exactly when the emoji is not in it |
| SelectionEmojis.IndexOfToList | bot/university/university.py:128-143 | every emoji of the list is found at its own position |
| Persistence.ParseSqlFile | bot/persistence/database_connector.py:600-611 | the script split at every ';': one statement more than semicolons, none holding a ';', and joined back they give the script |
| Persistence.DatabaseConnector.constructor | bot/persistence/database_connector.py:20-39 | a connector starts with every table empty |
| Persistence.DatabaseConnector.Create | bot/persistence/database_connector.py:20-29 | a missing file name raises the database error; otherwise a fresh connector with empty tables |
| Persistence.DatabaseConnector.AddMemberWarning | bot/persistence/database_connector.py:41-51 | the warning is appended with the next id |
| Persistence.DatabaseConnector.RemoveMemberWarning | bot/persistence/database_connector.py:53-61 | exactly the warning with that id goes |
| Persistence.DatabaseConnector.RemoveMemberWarnings | bot/persistence/database_connector.py:63-71 | exactly the member's warnings go |
| Persistence.DatabaseConnector.GetWarningUserId | bot/persistence/database_connector.py:73-88 | the member of the warning with that id, none exactly when there is no such warning |
| Persistence.DatabaseConnector.GetMemberWarnings | bot/persistence/database_connector.py:90-106 | exactly the member's warnings, none when there are none |
| Persistence.DatabaseConnector.AddMemberName | bot/persistence/database_connector.py:108-118 | the name is appended and becomes the first of the member's name history |
| Persistence.DatabaseConnector.GetMemberNames | bot/persistence/database_connector.py:120-136 | the member's names newest first, none when there are none |
| Persistence.DatabaseConnector.AddModuleRole | bot/persistence/database_connector.py:138-146 | the role joins the whitelist |
| Persistence.DatabaseConnector.RemoveModuleRole | bot/persistence/database_connector.py:148-156 | the role leaves the whitelist |
| Persistence.DatabaseConnector.CheckModuleRole | bot/persistence/database_connector.py:158-171 | `bool(row[0])` of SELECT EXISTS on the whitelist: true exactly when the role is stored; true after adding the role, false after removing it |
| Persistence.DatabaseConnector.GetCourseRole | bot/persistence/database_connector.py:173-188 | a stored role of the course, none exactly when the course has none |
| Persistence.DatabaseConnector.AddCourseRole | bot/persistence/database_connector.py:190-199 | the row is appended and the course now has a role |
| Persistence.DatabaseConnector.RemoveCourseRole | bot/persistence/database_connector.py:201-209 | exactly the role's rows go |
| Persistence.DatabaseConnector.GetReactionRole | bot/persistence/database_connector.py:211-227 | the role of the message and emoji, none exactly when there is no such row |
| Persistence.DatabaseConnector.AddReactionRole | bot/persistence/database_connector.py:229-239 | the row is appended and found afterwards |
| Persistence.DatabaseConnector.RemoveReactionRole | bot/persistence/database_connector.py:241-250 | exactly the rows of the message and emoji go |
| Persistence.DatabaseConnector.ClearReactionRoles | bot/persistence/database_connector.py:252-265 | exactly the message's rows go, and the result says whether there were any |
| Persistence.DatabaseConnector.AddReactionRoleUniquenessGroup | bot/persistence/database_connector.py:267-278 | the message is in the uniqueness groups afterwards |
| Persistence.DatabaseConnector.RemoveReactionRoleUniquenessGroup | bot/persistence/database_connector.py:280-291 | the message is no longer in the uniqueness groups |
| Persistence.DatabaseConnector.IsReactionRoleUniquenessGroup | bot/persistence/database_connector.py:293-308 | `bool(row[0])` of SELECT EXISTS on the uniqueness groups: true exactly when the message is stored; true after adding the group, false after removing it |
| Persistence.DatabaseConnector.AddSuggestion | bot/persistence/database_connector.py:310-324 | an undecided row without a message is appended under an id no other row has, and that id is returned |
| Persistence.DatabaseConnector.SetSuggestionMessageId | bot/persistence/database_connector.py:326-335 | the suggestion's rows get the message id; no other row changes |
| Persistence.DatabaseConnector.GetSuggestion | bot/persistence/database_connector.py:337-352 | the row with the id, none exactly when there is none |
| Persistence.DatabaseConnector.GetSuggestionStatus | bot/persistence/database_connector.py:354-369 | the status of a suggestion posted as that message, none exactly when there is none |
| Persistence.DatabaseConnector.SetSuggestionStatus | bot/persistence/database_connector.py:371-385 | the suggestion's rows get the status, no other row changes, and the result says whether a row had the id |
| Persistence.DatabaseConnector.GetAllSuggestionsWithStatus | bot/persistence/database_connector.py:387-402 | exactly the rows with the status, none when there are none |
| Persistence.DatabaseConnector.AddModmail | bot/persistence/database_connector.py:404-415 | an open ticket is appended |
| Persistence.DatabaseConnector.GetModmailStatus | bot/persistence/database_connector.py:417-432 | the ticket's status, none exactly when there is no such ticket |
| Persistence.DatabaseConnector.ChangeModmailStatus | bot/persistence/database_connector.py:434-443 | the ticket gets the status, no other ticket changes |
| Persistence.DatabaseConnector.GetAllModmailWithStatus | bot/persistence/database_connector.py:445-460 | exactly the tickets with the status, none when there are none |
| Persistence.DatabaseConnector.AddGroupOfferAndRequests | bot/persistence/database_connector.py:462-476 | a second offer for the pair is an IntegrityError that stores nothing; otherwise the offer without a message and one request per group are appended |
| Persistence.DatabaseConnector.UpdateGroupExchangeMessageId | bot/persistence/database_connector.py:478-491 | the pair's offer gets the message id, the others are kept |
| Persistence.DatabaseConnector.GetCandidatesForGroupExchange | bot/persistence/database_connector.py:493-515 | the candidate rows, none exactly when there are none; no candidate is the user and every candidate offers a requested group |
| Persistence.DatabaseConnector.GetGroupExchangeMessage | bot/persistence/database_connector.py:517-533 | none exactly when the pair has no offer; the message id of the offer otherwise; a TypeError when that offer has no message yet |
| Persistence.DatabaseConnector.RemoveGroupExchangeOffer | bot/persistence/database_connector.py:535-545 | the pair's offer and requests go and the pair has no offer afterwards |
| Persistence.DatabaseConnector.GetGroupExchangeForUser | bot/persistence/database_connector.py:547-562 | one listing per course the user has an offer with requests in, none when there is none |
| Persistence.DatabaseConnector.ActivateBotOnly | bot/persistence/database_connector.py:579-587 | the channel is bot-only afterwards |
| Persistence.DatabaseConnector.IsBotOnly | bot/persistence/database_connector.py:564-577 | `bool(row[0])` of SELECT EXISTS on the bot-only channels: true exactly when the channel is stored; true after activating, false after deactivating |
| Persistence.DatabaseConnector.DeactivateBotOnly | bot/persistence/database_connector.py:589-598 | the channel is no longer bot-only |
| Queries.NameHistory | bot/persistence/queries.py:76 | exactly the member's names |
| Queries.NameHistoryNewestFirst | bot/persistence/queries.py:76 | a name added last comes first (`ORDER BY ROWID DESC`) |
| Queries.ModmailStatusOf | bot/persistence/queries.py:6 | the status of a ticket with that id, none exactly when there is none |
| Queries.SetModmailStatus | bot/persistence/queries.py:5 | every row of the ticket gets the status, the others are kept |
| Queries.StatusAfterChange | bot/persistence/queries.py:5-6 | after the update the ticket reads back the new status, if it exists |
| Queries.OtherStatusUnchanged | bot/persistence/queries.py:5-6 | the update leaves every other ticket's status alone |
| Queries.AppendOfferKeepsUnique | bot/persistence/queries.py:39 | an offer for a pair without one keeps at most one offer per pair |
| Queries.WhereKeepsUnique | bot/persistence/queries.py:54 | deleting rows keeps at most one offer per pair |
| Queries.Placeholders | bot/persistence/queries.py:43-51 | one '?' per requested group, and none exactly for no groups |
| Queries.CandidateParameters | bot/persistence/queries.py:43-51 | one bound parameter per placeholder after the three fixed ones, the requested groups in order |
| Queries.RequestedGroups | bot/persistence/queries.py:40 | exactly the groups of the pair's requests |
| Queries.RequestRows | bot/persistence/queries.py:40 | one request row per requested group, in order |
| Queries.RequestedAfterInsert | bot/persistence/queries.py:39-40 | after a fresh offer's requests are inserted, the pair's requested groups are exactly those |
| Queries.CandidateMeaning | bot/persistence/queries.py:44-51 | a candidate is the offer of another user in the same course who requests the offered group and offers a requested one |
| Queries.Candidates | bot/persistence/queries.py:44-51 | the join of offers and requests on user and course with the WHERE clause, SELECT DISTINCT as a set: every candidate is another user's offer in the course, with an offered group among the requested ones; no offers, no requests or no requested groups give no candidate |
| Queries.SelectExists | bot/persistence/queries.py:13 | the one value of SELECT EXISTS is 1 exactly when the key is in the table, and 0 otherwise |
| Queries.MatchedForMeans | bot/persistence/queries.py:44-51 | an offer matches another exactly when their users differ and each offers a group the other requests |
| Queries.CandidateSymmetry | bot/persistence/queries.py:44-51 | matching is symmetric |
| Queries.ExchangeListing | bot/persistence/queries.py:56-61 | each listing is for a course the user has an offer in, with its requests |
| Queries.ListingOneRowPerCourse | bot/persistence/queries.py:56-61 | one listing per course |
| Queries.RemoveOffer | bot/persistence/queries.py:54 | exactly the pair's offers go |
| Queries.RemoveRequests | bot/persistence/queries.py:55 | exactly the pair's requests go |
| Queries.SetOfferMessage | bot/persistence/queries.py:41 | the pair's offers get the message id, the others are kept |
| Queries.SetOfferMessageKeepsUnique | bot/persistence/queries.py:41 | setting the message keeps one offer per pair |

## Left out

- Discord itself: sending, editing, deleting and fetching messages, reactions, permissions and embeds' colours, thumbnails and timestamps are not modelled. Where a property needs an effect, it is modelled on a role set or a table. Members' roles change at once, although Discord's cached roles may lag behind.
- The confirmation and staff-selection dialogs (`moderation.py:1097-1127`, `university.py:112-143`) wait for reactions with a timeout. This is I/O.
- HTTP: the u:find requests, pastebin's `requests.get`, and the web server and Ko-fi endpoints. XML elements are a plain datatype instead of ElementTree.
- `pytimeparse.timeparse` is an abstract `Option<int>` of seconds; its floats are not modelled. `datetime.now()` and the run dates are parameters.
- Scheduler jobs are left out: unmute, unban, warning expiry and the opening and closing of the group exchange. The warning expiry is modelled only as its number of weeks.
- The music playback loop (`music.py:69-80`) is async and can loop forever, so it is left out. The owner-only `cog_check` of the music cog is a call into Discord. youtube_dl and ffmpeg are foreign code.
- urlsplit's ValueError for malformed IPv6 literals and its NFKC check on the network location are not modelled.
- Characters are modelled in the Latin-1 range. `\w`, `lower()`, `upper()`, `capitalize()` and `title()` outside it are not modelled.
- Three Latin-1 letters keep their case in the model. They are ß (U+00DF), µ (U+00B5) and ÿ (U+00FF). Python upper-cases them to "SS", U+039C and U+0178, which are outside Latin-1 or two characters long. `capitalize()` of "ß" also gives "Ss". So a module or course name containing them is upper-cased or capitalized differently than in Python (`RoleManagement.ModuleRole`, `University.ParseCourse`).
- Discord also normalises text-channel names. The derived names are modelled, that normalisation is not.
- `LIMIT_GAMING_CHANNELS` (`gaming.py:47`), `LIMIT_SUGGESTION_VOTES` and the suggestion colours (`feedback.py:205`) are not defined in `constants.py`, so they are parameters. `GamingCog` is not among the initial extensions either.
- `toggle_module` removes duplicates through a Python `set`, whose iteration order is arbitrary. The model takes the order as a parameter.
- The reaction-role listeners (`role_management.py:371-433`) are left out: their role changes go through Discord alone.
- The `course` command (`role_management.py:36-56`) only fetches course options over HTTP and shows the menu, so only the menu is modelled. The whitelist owner commands (`role_management.py:62-110`, `165-223`) are modelled only as their effect on the role tables, not their replies.
- The database schema (`init_db.sql`) is not part of this model. Its unique constraint on one offer per user and course is taken as given. Row ids are counters, and sqlite's transactions and concurrency are not modelled.
- `parse_sql_file` is modelled on the file's content; reading the file is I/O.
- The ticket list (`moderation.py:1435-1457`) takes each ticket's date as already formatted text. The date formatting itself is left out.
- The office-hours regexes (`university.py:653-673`) and the ersti date threshold (`university.py:395`) are left out.
- The lockdown, mute, kick and ban commands, `name_change`, `ping` latency, presence changes and the translation Cog (`translation.py`) act only through Discord or on missing code, so they are left out. So is the `print` in the reaction-role error handler.
- The `translate` command (`utility.py:218-240`) is left out. It acts only through Discord and the DeepL service, and as written it reads an undefined `msg_id` (`utility.py:230`).
- Every suggestion method of the connector (`database_connector.py:321`, `334`, `347`, `364`, `382`, `397`) reads a `queries.*SUGGESTION*` constant that `queries.py` does not define. As written, each of these calls raises AttributeError, so no suggestion is ever stored or read. The model gives these operations the meaning their docstrings and callers state. It does not model the AttributeError.
- Moderation.RoleFieldFits: the 1024-character bound is proved only while fewer than 100 further roles are counted, because the suffix's number is then at most two digits.
- University.TeachingWithinLimit: the 1024-character bound is proved only when the "- [...]" marker and the "Weitere Lehre" link fit together in 1024 characters, which holds for every staff id of at most 940 characters, since the link is a fixed URL plus the id.
- University.RemoveExchange: `if message_id:` is modelled as a message id other than 0.

## Findings

| source | as written | input that shows it | evidently intended | confidence | as-written member | corrected member |
|---|---|---|---|---|---|---|
| bot/admin/admin.py:535 | `_get_cog_name` capitalizes, lowercasing everything after the first letter, before the name is looked up in INITIAL_EXTNS | the `cog load` subcommand with "RoleManagementCog" normalizes to "RolemanagementCog", which is no key, so it raises KeyError | every Cog, RoleManagementCog included, can be loaded by its own name | not executed | Admin.RoleManagementUnreachable | Admin.EveryCogReachableIgnoringCase |
| bot/moderation/moderation.py:1084 | the assign reaction sets `ModmailStatus.ASSIGNED`, which the enum does not define | adding the assign reaction to any ticket raises AttributeError and stores nothing | the ticket becomes IN_PROGRESS | not executed | Moderation.AssignNeverStored | Moderation.ChangeModmailStatus |
| bot/community/community.py:105-116 | the 1..99 check runs on the `user_limit` argument before a sole numeric name becomes the limit | `!sr 150` requests a voice channel with user_limit 150 | no room gets a limit outside 1..99 | not executed | Community.NumericNameSkipsLimitCheck | Community.CreateCommunityRoomChecked |
| bot/gaming/gaming.py:49-60 | the check for limits above 99 runs before a sole numeric name becomes the limit | with `LIMIT_GAMING_CHANNELS` defined and `GamingCog` loaded, `!gr 150` requests a voice channel with user_limit 150 | no game room gets a limit above 99 | not executed | Gaming.NumericNameSkipsGamingCheck | Gaming.CreateGamingRoomChecked |
| bot/music/music.py:63-64 | the queue is trimmed only when it holds exactly 300 songs | 299 queued songs plus a playlist of two give 301, and the queue is never trimmed again | the queue never holds more than 300 songs | not executed | Music.QueueOvershootsLimit | Music.CappedQueue |
| bot/role_management/role_management.py:136-155 | duplicates are removed before uppercasing, so names differing only in case are toggled once each | `!module abc ABC` processes the role ABC once per case variant: it is toggled and listed once for "abc" and once for "ABC" | each module is toggled once and listed once | not executed | RoleManagement.CaseVariantsToggledTwice | RoleManagement.ToggleModuleByUpperName |
