/**
 * `bot/gaming/gaming.py`: temporary game rooms in the gaming category. The
 * naming and numbering follow the community rooms; the checks, the fallback
 * limit and the text-channel name differ.
 */
module Gaming {
  import opened Wrappers
  import opened Text
  import opened Community

  /** The exceptions `create_gaming_room` raises. */
  datatype GameRoomError = RuntimeWarning | InvalidArgument | NotImplementedError

  /** `user_limit and user_limit > 99`: only a limit above 99 is refused. */
  predicate LimitTooLarge(userLimit: Option<int>) {
    Truthy(userLimit) && userLimit.value > 99
  }

  /** The renaming steps of `create_gaming_room`: number the name, cut it. */
  method NameGameRoom(requested: string, voiceNames: seq<string>) returns (name: string)
    ensures name == Numbered(requested, voiceNames)
  {
    name := requested;
    var addition := DetermineChannelNumber(voiceNames, name);
    if addition.Some? {
      name := name + addition.value;
    }
    if |name| > 100 {
      name := name[..100];
    }
  }

  /**
   * `create_gaming_room`: a full category (all its channels counted against
   * `gamingChannelLimit`), then a given limit above 99, then a member who
   * already owns a game room are refused, in this order; otherwise the room
   * gets the requested name with the next free number when it is in use, cut
   * to 100 characters, and the requested limit, a sole non-numeric argument
   * meaning no limit.
   */
  method CreateGamingRoom(channelCount: nat, gamingChannelLimit: int, voiceNames: seq<string>, ownsRoom: bool,
                          displayName: string, chName: Option<string>, userLimit: Option<int>)
    returns (r: Result<Room, GameRoomError>)
    ensures r == Err(GameRoomError.RuntimeWarning) <==> channelCount >= gamingChannelLimit
    ensures r == Err(InvalidArgument) <==> channelCount < gamingChannelLimit && LimitTooLarge(userLimit)
    ensures r == Err(GameRoomError.NotImplementedError) <==>
      channelCount < gamingChannelLimit && !LimitTooLarge(userLimit) && ownsRoom
    ensures r.Ok? ==> |r.value.name| <= ChannelNameLimit
    ensures r.Ok? ==> r.value.name == Numbered(RequestedName(displayName, chName, userLimit), voiceNames)
    ensures r.Ok? ==> r.value.userLimit == RequestedLimit(chName, userLimit, None)
  {
    if channelCount >= gamingChannelLimit {
      return Err(GameRoomError.RuntimeWarning);
    }
    if userLimit.Some? && userLimit.value != 0 && userLimit.value > 99 {
      return Err(InvalidArgument);
    }
    if ownsRoom {
      return Err(GameRoomError.NotImplementedError);
    }
    var name, limit := ChooseNameAndLimit(displayName, chName, userLimit, None);
    name := NameGameRoom(name, voiceNames);
    r := Ok(Room(name, limit));
  }

  /** As for community rooms, a sole argument "150" passes the check and becomes the limit. */
  lemma NumericNameSkipsGamingCheck()
    ensures !LimitTooLarge(None)
    ensures RequestedLimit(Some("150"), None, None) == Some(150) && LimitTooLarge(Some(150))
  {
    NumericNameSkipsLimitCheck();
  }

  /**
   * `create_gaming_room` with the check applied to the limit it derives,
   * whichever argument it came from: no limit it sets exceeds 99.
   */
  method CreateGamingRoomChecked(channelCount: nat, gamingChannelLimit: int, voiceNames: seq<string>, ownsRoom: bool,
                                 displayName: string, chName: Option<string>, userLimit: Option<int>)
    returns (r: Result<Room, GameRoomError>)
    ensures r == Err(GameRoomError.RuntimeWarning) <==> channelCount >= gamingChannelLimit
    ensures r == Err(InvalidArgument) <==> (channelCount < gamingChannelLimit &&
      (LimitTooLarge(userLimit) || (!ownsRoom && LimitTooLarge(RequestedLimit(chName, userLimit, None)))))
    ensures r == Err(GameRoomError.NotImplementedError) <==>
      channelCount < gamingChannelLimit && !LimitTooLarge(userLimit) && ownsRoom
    ensures r.Ok? ==> !LimitTooLarge(r.value.userLimit)
    ensures r.Ok? ==> r.value.name == Numbered(RequestedName(displayName, chName, userLimit), voiceNames)
    ensures r.Ok? ==> r.value.userLimit == RequestedLimit(chName, userLimit, None)
  {
    r := CreateGamingRoom(channelCount, gamingChannelLimit, voiceNames, ownsRoom, displayName, chName, userLimit);
    assert r.Err? ==> r.error.RuntimeWarning? || r.error.InvalidArgument? || r.error.NotImplementedError?;
    assert r.Ok? <==> channelCount < gamingChannelLimit && !LimitTooLarge(userLimit) && !ownsRoom;
    if r.Ok? && LimitTooLarge(r.value.userLimit) {
      r := Err(InvalidArgument);
    }
  }

  // -------------------------------------------------------------- deletion

  /** `name.lower().replace(" ", "-").replace("[#", "").replace("]", "")` */
  function GamingTextName(voiceName: string): string {
    Replace(Replace(Replace(Lower(voiceName), " ", "-"), "[#", ""), "]", "")
  }

  /**
   * The text name holds no space, no ']' and no upper-case letter; every other
   * character comes from the voice name or is a '-'.
   */
  lemma GamingTextNameChars(voiceName: string)
    ensures forall c :: c in GamingTextName(voiceName) ==>
      c != ' ' && c != ']' && !IsUpperLetter(c) && (c in Lower(voiceName) || c == '-')
  {
    var lowered := Lower(voiceName);
    var dashed := Replace(lowered, " ", "-");
    var unopened := Replace(dashed, "[#", "");
    ReplaceCharGone(lowered, ' ', "-");
    ReplaceCharGone(unopened, ']', "");
    forall c | c in GamingTextName(voiceName)
      ensures c != ' ' && c != ']' && !IsUpperLetter(c) && (c in lowered || c == '-')
    {
      ReplaceFrom(unopened, "]", "", c);
      ReplaceFrom(dashed, "[#", "", c);
      ReplaceFrom(lowered, " ", "-", c);
      if c in lowered {
        var k :| 0 <= k < |lowered| && lowered[k] == c;
      }
    }
  }

  /**
   * `delete_gaming_room`: a voice channel of the gaming category that a member
   * left and that is now empty is deleted with the first gaming text channel
   * carrying its derived name; without one the lookup fails first and nothing
   * is deleted.
   */
  function DeleteGamingRoom(before: Option<VoiceChannel>, after: Option<VoiceChannel>, gamingCategoryId: int,
                            textChannels: seq<TextChannel>): (r: Deletion)
    ensures r != KeepRoom <==> (before.Some? && before.value.categoryId == Some(gamingCategoryId)
      && Left(before.value, after) && before.value.memberCount == 0)
    ensures r.DeleteRoom? ==> (r.voiceId == before.value.id &&
      exists k :: 0 <= k < |textChannels| && textChannels[k].id == r.textId
        && textChannels[k].name == GamingTextName(before.value.name))
    ensures r == TextChannelMissing ==>
      forall j :: 0 <= j < |textChannels| ==> textChannels[j].name != GamingTextName(before.value.name)
  {
    if before.Some? && before.value.categoryId == Some(gamingCategoryId)
       && Left(before.value, after) && before.value.memberCount == 0 then
      match FirstNamed(textChannels, GamingTextName(before.value.name))
      case None => TextChannelMissing
      case Some(k) => DeleteRoom(before.value.id, textChannels[k].id)
    else KeepRoom
  }
}
