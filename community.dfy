/**
 * `bot/community/community.py`: temporary study and game rooms. A room is a
 * voice channel and a text channel with the same name, created on request in
 * one of two categories and deleted once its voice channel is left empty.
 * Discord itself is out of the picture: a category is the list of its voice
 * channels' names, and a voice-state change is the channels before and after.
 */
module Community {
  import opened Wrappers
  import opened Text
  import opened Constants

  /** The exceptions `create_community_room` raises. */
  datatype RoomError = RuntimeWarning | ValueError | NotImplementedError

  /** The voice channel a request creates: its name and its user limit. */
  datatype Room = Room(name: string, userLimit: Option<int>)

  /** Discord's longest channel name. */
  const ChannelNameLimit := 100

  // ------------------------------------------------------ channel numbers

  /** Length of the run of ASCII digits at the start of `s`. */
  function DigitRun(s: string): (n: nat)
    ensures n <= |s|
    ensures forall k :: 0 <= k < n ==> IsDigit(s[k])
    ensures n < |s| ==> !IsDigit(s[n])
  {
    if s != [] && IsDigit(s[0]) then 1 + DigitRun(s[1..]) else 0
  }

  lemma {:induction false} DigitRunAppend(t: string, u: string)
    ensures DigitRun(t + u) == if DigitRun(t) < |t| then DigitRun(t) else |t| + DigitRun(u)
    decreases |t|
  {
    if t != [] {
      assert (t + u)[1..] == t[1..] + u;
      DigitRunAppend(t[1..], u);
    } else {
      assert t + u == u;
    }
  }

  /** `[#`, one or more digits and `]` start at `i`: a match of `\[#\d+]`. */
  predicate TagAt(s: string, i: nat) {
    i + 2 < |s| && s[i] == '[' && s[i + 1] == '#' &&
    var d := DigitRun(s[i + 2..]);
    d > 0 && i + 2 + d < |s| && s[i + 2 + d] == ']'
  }

  function TagFrom(s: string, from: nat): (r: Option<nat>)
    requires from <= |s|
    ensures r.Some? ==> from <= r.value < |s| && TagAt(s, r.value) && forall j :: from <= j < r.value ==> !TagAt(s, j)
    ensures r.None? ==> forall j :: from <= j < |s| ==> !TagAt(s, j)
    decreases |s| - from
  {
    if from == |s| then None
    else if TagAt(s, from) then Some(from)
    else TagFrom(s, from + 1)
  }

  /** `re.search(r"\[#\d+]", s)`: where the leftmost channel number starts. */
  function FindTag(s: string): (r: Option<nat>)
    ensures r.Some? ==> TagAt(s, r.value) && forall j :: 0 <= j < r.value ==> !TagAt(s, j)
    ensures r.None? ==> forall j :: 0 <= j < |s| ==> !TagAt(s, j)
  {
    TagFrom(s, 0)
  }

  /** The digits of the channel number at `i` (the group of `\[#(\d+)]`). */
  function TagDigits(s: string, i: nat): string
    requires TagAt(s, i)
  {
    s[i + 2..i + 2 + DigitRun(s[i + 2..])]
  }

  /** The whole channel number at `i`, brackets included (the group of `(\[#\d+])`). */
  function TagText(s: string, i: nat): string
    requires TagAt(s, i)
  {
    s[i..i + 3 + DigitRun(s[i + 2..])]
  }

  /** The suffix `f" [#{n}]"`. */
  function NumberSuffix(n: nat): string {
    " [#" + NatToString(n) + "]"
  }

  /** The number a channel name asks for next: one more than its first "[#k]", or 2 without one. */
  function NextNumber(existing: string): (n: nat)
    ensures n >= 1
  {
    match FindTag(existing)
    case Some(i) => DigitsValue(TagDigits(existing, i)) + 1
    case None => 2
  }

  /** `next(ch.name for ch in reversed(channels) if name in ch.name)`, as an index. */
  function LastContaining(names: seq<string>, name: string): (r: Option<nat>)
    ensures r.Some? ==> (r.value < |names| && Contains(names[r.value], name)
      && forall j :: r.value < j < |names| ==> !Contains(names[j], name))
    ensures r.None? <==> forall j :: 0 <= j < |names| ==> !Contains(names[j], name)
  {
    if names == [] then None
    else if Contains(names[|names| - 1], name) then Some(|names| - 1)
    else LastContaining(names[..|names| - 1], name)
  }

  /**
   * `_determine_channel_number`: no suffix when no voice channel's name
   * contains the name; otherwise the next number after the one carried by the
   * last such channel.
   */
  function DetermineChannelNumber(voiceNames: seq<string>, name: string): (r: Option<string>)
    ensures r.None? <==> forall j :: 0 <= j < |voiceNames| ==> !Contains(voiceNames[j], name)
    ensures r.Some? ==> exists k :: (0 <= k < |voiceNames| && Contains(voiceNames[k], name)
      && (forall j :: k < j < |voiceNames| ==> !Contains(voiceNames[j], name))
      && r.value == NumberSuffix(NextNumber(voiceNames[k])))
  {
    match LastContaining(voiceNames, name)
    case None => None
    case Some(k) => Some(NumberSuffix(NextNumber(voiceNames[k])))
  }

  lemma DigitRunDigits(d: string, u: string)
    requires forall k :: 0 <= k < |d| ==> IsDigit(d[k])
    requires u != [] && !IsDigit(u[0])
    ensures DigitRun(d + u) == |d|
  {
    DigitRunAll(d);
    DigitRunAppend(d, u);
  }

  lemma {:induction false} DigitRunAll(d: string)
    requires forall k :: 0 <= k < |d| ==> IsDigit(d[k])
    ensures DigitRun(d) == |d|
    decreases |d|
  {
    if d != [] {
      DigitRunAll(d[1..]);
    }
  }

  /**
   * A name without a number followed by a suffix: the suffix holds the
   * leftmost channel number, and it reads back as the number written.
   */
  lemma {:induction false} SuffixedNumber(base: string, n: nat)
    requires FindTag(base) == None
    ensures var s := base + NumberSuffix(n);
      FindTag(s) == Some(|base| + 1) && TagDigits(s, |base| + 1) == NatToString(n)
  {
    var digits := NatToString(n);
    var s := base + NumberSuffix(n);
    var p := |base| + 1;
    assert s[p + 2..] == digits + "]";
    DigitRunDigits(digits, "]");
    assert TagAt(s, p);
    assert TagDigits(s, p) == digits;
    forall j | 0 <= j < p ensures !TagAt(s, j) {
      if j < |base| && j + 2 < |s| && s[j] == '[' && s[j + 1] == '#' {
        var t := base[j + 2..];
        assert s[j + 2..] == t + NumberSuffix(n);
        DigitRunAppend(t, NumberSuffix(n));
        if DigitRun(t) < |t| {
          assert s[j + 2 + DigitRun(t)] == base[j + 2 + DigitRun(t)];
          assert !TagAt(base, j);
        }
      }
    }
  }

  /** The first repeat of a name without a number gets " [#2]". */
  lemma FirstRepeatIsTwo(voiceNames: seq<string>, name: string)
    requires voiceNames != [] && voiceNames[|voiceNames| - 1] == name && FindTag(name) == None
    ensures DetermineChannelNumber(voiceNames, name) == Some(NumberSuffix(2))
  {
    ContainsOccurrence(name, name, 0);
  }

  /** After a room numbered n, the next room with that name is numbered n + 1. */
  lemma NumberingContinues(voiceNames: seq<string>, name: string, n: nat)
    requires voiceNames != [] && voiceNames[|voiceNames| - 1] == name + NumberSuffix(n)
    requires FindTag(name) == None
    ensures DetermineChannelNumber(voiceNames, name) == Some(NumberSuffix(n + 1))
  {
    var last := name + NumberSuffix(n);
    assert last[..|name|] == name;
    ContainsOccurrence(last, name, 0);
    SuffixedNumber(name, n);
    assert NextNumber(last) == n + 1;
  }

  // ------------------------------------------------------------ room names

  /** `f"{ctx.author.display_name}'s Room"` */
  function DefaultRoomName(displayName: string): string {
    displayName + "'s Room"
  }

  /** Python truthiness of an optional limit: present and not zero. */
  predicate Truthy(limit: Option<int>) {
    limit.Some? && limit.value != 0
  }

  /**
   * The name a request asks for: a sole numeric argument is a limit and the
   * room gets the default name; a sole other argument is the name; otherwise
   * the given name, or the default one without any.
   */
  function RequestedName(displayName: string, chName: Option<string>, userLimit: Option<int>): string {
    if Given(chName) && !Truthy(userLimit) then
      if ParseInt(chName.value).Some? then DefaultRoomName(displayName) else chName.value
    else if chName.None? then DefaultRoomName(displayName)
    else chName.value
  }

  /**
   * The limit a request asks for: a sole numeric argument is the limit, a sole
   * other argument gets `fallback`; otherwise the given limit.
   */
  function RequestedLimit(chName: Option<string>, userLimit: Option<int>, fallback: Option<int>): Option<int> {
    if Given(chName) && !Truthy(userLimit) then
      if ParseInt(chName.value).Some? then ParseInt(chName.value) else fallback
    else userLimit
  }

  /** `name.replace(regex.group(1), "")` for the leftmost "[#k]" the member typed. */
  function StripNumber(name: string): string {
    match FindTag(name)
    case None => name
    case Some(i) => Replace(name, TagText(name, i), "")
  }

  /**
   * The name with the numbering suffix appended when the name is in use, cut
   * to Discord's 100 characters.
   */
  function Numbered(name: string, voiceNames: seq<string>): (r: string)
    ensures |r| <= ChannelNameLimit
    ensures DetermineChannelNumber(voiceNames, name).None? ==> r == Take(name, ChannelNameLimit)
    ensures DetermineChannelNumber(voiceNames, name).Some? ==>
      r == Take(name + DetermineChannelNumber(voiceNames, name).value, ChannelNameLimit)
    ensures |name| <= ChannelNameLimit ==> StartsWith(r, name)
  {
    var addition := DetermineChannelNumber(voiceNames, name);
    var full := if addition.Some? then name + addition.value else name;
    assert full[..|name|] == name;
    Take(full, ChannelNameLimit)
  }

  /** A fresh name that fits is used as it is. */
  lemma NumberedFresh(name: string, voiceNames: seq<string>)
    requires forall j :: 0 <= j < |voiceNames| ==> !Contains(voiceNames[j], name)
    requires |name| <= ChannelNameLimit
    ensures Numbered(name, voiceNames) == name
  {
  }

  /** A name in use that fits with its suffix gets the suffix of the next free number. */
  lemma NumberedRepeat(name: string, voiceNames: seq<string>, n: nat)
    requires voiceNames != [] && voiceNames[|voiceNames| - 1] == name + NumberSuffix(n)
    requires FindTag(name) == None
    requires |name + NumberSuffix(n + 1)| <= ChannelNameLimit
    ensures Numbered(name, voiceNames) == name + NumberSuffix(n + 1)
  {
    NumberingContinues(voiceNames, name, n);
  }

  // -------------------------------------------------------------- creation

  /**
   * The naming step of both room commands: `name` and `limit` as the
   * arguments set them, a sole non-numeric argument getting `fallback`.
   */
  method ChooseNameAndLimit(displayName: string, chName: Option<string>, userLimit: Option<int>, fallback: Option<int>)
    returns (name: string, limit: Option<int>)
    ensures Given(chName) && !Truthy(userLimit) && ParseInt(chName.value).Some? ==>
      name == DefaultRoomName(displayName) && limit == ParseInt(chName.value)
    ensures Given(chName) && !Truthy(userLimit) && ParseInt(chName.value).None? ==>
      name == chName.value && limit == fallback
    ensures !(Given(chName) && !Truthy(userLimit)) ==>
      name == (if chName.None? then DefaultRoomName(displayName) else chName.value) && limit == userLimit
  {
    if chName.Some? && chName.value != "" && !(userLimit.Some? && userLimit.value != 0) {
      var parsed := ParseInt(chName.value);
      if parsed.Some? {
        limit := parsed;
        name := displayName + "'s Room";
      } else {
        limit := fallback;
        name := chName.value;
      }
    } else {
      name := if chName.None? then displayName + "'s Room" else chName.value;
      limit := userLimit;
    }
  }

  /** The renaming steps of `create_community_room`: strip a typed number, number the name, cut it. */
  method NameRoom(requested: string, voiceNames: seq<string>) returns (name: string)
    ensures name == Numbered(StripNumber(requested), voiceNames)
  {
    name := requested;
    var tag := FindTag(name);
    if tag.Some? {
      name := Replace(name, TagText(name, tag.value), "");
    }
    var addition := DetermineChannelNumber(voiceNames, name);
    if addition.Some? {
      name := name + addition.value;
    }
    if |name| > 100 {
      name := name[..100];
    }
  }

  /** `user_limit and (user_limit < 1 or user_limit > 99)` */
  predicate LimitOutOfRange(userLimit: Option<int>) {
    Truthy(userLimit) && (userLimit.value < 1 || userLimit.value > 99)
  }

  /**
   * `create_community_room`: too many voice channels in the category, then a
   * given limit outside 1..99, then a member who already owns a room in either
   * category are refused, in this order; otherwise the room gets the requested
   * name, without a number the member typed, with the next free number when
   * the name is in use and cut to 100 characters, and the requested limit, a
   * sole non-numeric argument meaning 99.
   */
  method CreateCommunityRoom(voiceNames: seq<string>, ownsRoom: bool, displayName: string,
                             chName: Option<string>, userLimit: Option<int>)
    returns (r: Result<Room, RoomError>)
    ensures r == Err(RuntimeWarning) <==> |voiceNames| >= LimitCommunityChannels
    ensures r == Err(ValueError) <==> |voiceNames| < LimitCommunityChannels && LimitOutOfRange(userLimit)
    ensures r == Err(NotImplementedError) <==>
      |voiceNames| < LimitCommunityChannels && !LimitOutOfRange(userLimit) && ownsRoom
    ensures r.Ok? ==> |r.value.name| <= ChannelNameLimit
    ensures r.Ok? ==> r.value.name == Numbered(StripNumber(RequestedName(displayName, chName, userLimit)), voiceNames)
    ensures r.Ok? ==> r.value.userLimit == RequestedLimit(chName, userLimit, Some(99))
  {
    if |voiceNames| >= LimitCommunityChannels {
      return Err(RuntimeWarning);
    }
    if userLimit.Some? && userLimit.value != 0 && (userLimit.value < 1 || userLimit.value > 99) {
      return Err(ValueError);
    }
    if ownsRoom {
      return Err(NotImplementedError);
    }

    var name, limit := ChooseNameAndLimit(displayName, chName, userLimit, Some(99));
    name := NameRoom(name, voiceNames);
    r := Ok(Room(name, limit));
  }

  /**
   * The numeric-name path passes the range check: a sole argument "150" is
   * accepted and becomes a user limit of 150.
   */
  lemma NumericNameSkipsLimitCheck()
    ensures !LimitOutOfRange(None)
    ensures RequestedLimit(Some("150"), None, Some(99)) == Some(150)
  {
    var s := "150";
    assert s[0] == '1' && s[1] == '5' && s[2] == '0';
    assert StripLeft(s) == s;
    assert Strip(s) == s;
    assert IsDigit(s[0]) && IsDigit(s[1]) && IsDigit(s[2]);
    assert IsDigitGroup(s);
    assert s[..2] == "15" && "15"[..1] == "1";
    assert DigitsValue(s) == 150;
  }

  /**
   * `create_community_room` with the range check applied to the limit it
   * derives, whichever argument it came from: every limit it sets is 1..99.
   */
  method CreateCommunityRoomChecked(voiceNames: seq<string>, ownsRoom: bool, displayName: string,
                                    chName: Option<string>, userLimit: Option<int>)
    returns (r: Result<Room, RoomError>)
    ensures r == Err(RuntimeWarning) <==> |voiceNames| >= LimitCommunityChannels
    ensures r == Err(ValueError) <==> (|voiceNames| < LimitCommunityChannels &&
      (LimitOutOfRange(userLimit) || (!ownsRoom && LimitOutOfRange(RequestedLimit(chName, userLimit, Some(99))))))
    ensures r == Err(NotImplementedError) <==>
      |voiceNames| < LimitCommunityChannels && !LimitOutOfRange(userLimit) && ownsRoom
    ensures r.Ok? ==> !LimitOutOfRange(r.value.userLimit)
    ensures r.Ok? ==> r.value.name == Numbered(StripNumber(RequestedName(displayName, chName, userLimit)), voiceNames)
    ensures r.Ok? ==> r.value.userLimit == RequestedLimit(chName, userLimit, Some(99))
  {
    r := CreateCommunityRoom(voiceNames, ownsRoom, displayName, chName, userLimit);
    assert r.Err? ==> r.error.RuntimeWarning? || r.error.ValueError? || r.error.NotImplementedError?;
    assert r.Ok? <==> |voiceNames| < LimitCommunityChannels && !LimitOutOfRange(userLimit) && !ownsRoom;
    if r.Ok? && LimitOutOfRange(r.value.userLimit) {
      r := Err(ValueError);
    }
  }

  // -------------------------------------------------------------- deletion

  /** A voice channel as the voice-state event shows it. */
  datatype VoiceChannel = VoiceChannel(id: int, name: string, categoryId: Option<int>, memberCount: nat)

  /** A text channel of the room's category. */
  datatype TextChannel = TextChannel(id: int, name: string)

  /**
   * What a voice-state change does to a room: nothing, delete both channels,
   * or fail on the lookup of the text channel (`next` raising StopIteration)
   * before anything is deleted.
   */
  datatype Deletion = KeepRoom | DeleteRoom(voiceId: int, textId: int) | TextChannelMissing

  /** Characters the first substitution keeps: `\w`, `\s` and `-`. */
  predicate KeptInTextName(c: char) {
    IsWordChar(c) || IsSpace(c) || c == '-'
  }

  /** `re.sub(r"[^\w\s-]", "", s)` */
  function RemoveNonWord(s: string): (r: string)
    ensures |r| <= |s|
    ensures forall i :: 0 <= i < |r| ==> KeptInTextName(r[i]) && r[i] in s
    ensures (forall i :: 0 <= i < |s| ==> KeptInTextName(s[i])) ==> r == s
  {
    if s == [] then []
    else
      var front := RemoveNonWord(s[..|s| - 1]);
      assert forall c :: c in s[..|s| - 1] ==> c in s;
      var last := s[|s| - 1];
      if KeptInTextName(last) then front + [last] else front
  }

  /** `re.sub(r"\s", "-", s)` */
  function SpacesToDashes(s: string): (r: string)
    ensures |r| == |s|
    ensures forall i :: 0 <= i < |s| ==> r[i] == if IsSpace(s[i]) then '-' else s[i]
  {
    seq(|s|, i requires 0 <= i < |s| => if IsSpace(s[i]) then '-' else s[i])
  }

  /** The text-channel name `delete_community_room` looks for. */
  function CommunityTextName(voiceName: string): string {
    SpacesToDashes(RemoveNonWord(Lower(voiceName)))
  }

  /** The text name is no longer than the voice name and holds only lower-case word characters and '-'. */
  lemma CommunityTextNameChars(voiceName: string)
    ensures |CommunityTextName(voiceName)| <= |voiceName|
    ensures forall i :: 0 <= i < |CommunityTextName(voiceName)| ==>
      var c := CommunityTextName(voiceName)[i]; (IsWordChar(c) || c == '-') && !IsSpace(c) && !IsUpperLetter(c)
  {
    var lowered := Lower(voiceName);
    var kept := RemoveNonWord(lowered);
    forall i | 0 <= i < |kept| ensures !IsUpperLetter(kept[i]) {
      var k :| 0 <= k < |lowered| && lowered[k] == kept[i];
    }
    forall c | IsWordChar(c) ensures !IsSpace(c) {
    }
  }

  /** Normalising a normalised name changes nothing. */
  lemma CommunityTextNameIdempotent(voiceName: string)
    ensures CommunityTextName(CommunityTextName(voiceName)) == CommunityTextName(voiceName)
  {
    var t := CommunityTextName(voiceName);
    CommunityTextNameChars(voiceName);
    assert Lower(t) == t;
    assert RemoveNonWord(t) == t;
  }

  /** `next(ch for ch in text_channels if ch.name == name)`, as an index. */
  function FirstNamed(channels: seq<TextChannel>, name: string): (r: Option<nat>)
    ensures r.Some? ==> (r.value < |channels| && channels[r.value].name == name
      && forall j :: 0 <= j < r.value ==> channels[j].name != name)
    ensures r.None? <==> forall j :: 0 <= j < |channels| ==> channels[j].name != name
  {
    if channels == [] then None
    else if channels[0].name == name then Some(0)
    else match FirstNamed(channels[1..], name)
      case None => None
      case Some(k) => Some(k + 1)
  }

  /** `before.channel != after.channel`: the member left the channel (or the voice chat). */
  predicate Left(before: VoiceChannel, after: Option<VoiceChannel>) {
    after.None? || after.value.id != before.id
  }

  /**
   * `delete_community_room`: a voice channel of either room category that a
   * member left and that is now empty is deleted with the first text channel
   * of its category carrying its normalised name; without such a text channel
   * the lookup fails first and nothing is deleted.
   */
  function DeleteCommunityRoom(before: Option<VoiceChannel>, after: Option<VoiceChannel>,
                               gamingCategoryId: int, studyCategoryId: int, textChannels: seq<TextChannel>)
    : (r: Deletion)
    ensures r != KeepRoom <==> (before.Some? && before.value.categoryId in {Some(gamingCategoryId), Some(studyCategoryId)}
      && Left(before.value, after) && before.value.memberCount == 0)
    ensures r.DeleteRoom? ==> (r.voiceId == before.value.id &&
      exists k :: 0 <= k < |textChannels| && textChannels[k].id == r.textId
        && textChannels[k].name == CommunityTextName(before.value.name))
    ensures r == TextChannelMissing ==>
      forall j :: 0 <= j < |textChannels| ==> textChannels[j].name != CommunityTextName(before.value.name)
  {
    if before.Some? && before.value.categoryId in {Some(gamingCategoryId), Some(studyCategoryId)}
       && Left(before.value, after) && before.value.memberCount == 0 then
      match FirstNamed(textChannels, CommunityTextName(before.value.name))
      case None => TextChannelMissing
      case Some(k) => DeleteRoom(before.value.id, textChannels[k].id)
    else KeepRoom
  }

  /** A room a member is still in, or one the member did not leave, is never deleted. */
  lemma OccupiedRoomKept(before: VoiceChannel, after: Option<VoiceChannel>,
                         gamingCategoryId: int, studyCategoryId: int, textChannels: seq<TextChannel>)
    requires before.memberCount > 0 || (after.Some? && after.value.id == before.id)
    ensures DeleteCommunityRoom(Some(before), after, gamingCategoryId, studyCategoryId, textChannels) == KeepRoom
  {
  }
}
