/**
 * `bot/utility/utility.py`: the pieces of the `serverinfo` embed, namely the
 * boost level cap, the channel and member counters and the feature list.
 */
module Utility {
  import opened Wrappers
  import opened Text
  import opened Constants

  /** The parts of a server (`discord.Guild`) that the embed reads. */
  datatype Guild = Guild(
    owner: string,
    premiumTier: nat,
    premiumSubscriptionCount: nat,
    memberCount: int,
    memberIsBot: seq<bool>,
    textChannels: nat,
    voiceChannels: nat,
    roles: nat,
    features: seq<string>)

  // -------------------------------------------------------------- boosts

  /** The boost counts at which the server reaches the next level. */
  const BoostCaps: seq<int> := [DiscordBoostLvl1Cap, DiscordBoostLvl2Cap, DiscordBoostLvl3Cap]

  /**
   * `determine_boost_level_cap`: "/<cap>" for the smallest level cap the boost
   * count has not reached yet, "" once the last level is reached.
   */
  function BoostLevelCap(amountBoosts: int): (r: string)
    ensures amountBoosts < DiscordBoostLvl1Cap ==> r == "/2"
    ensures DiscordBoostLvl1Cap <= amountBoosts < DiscordBoostLvl2Cap ==> r == "/7"
    ensures DiscordBoostLvl2Cap <= amountBoosts < DiscordBoostLvl3Cap ==> r == "/14"
    ensures DiscordBoostLvl3Cap <= amountBoosts ==> r == ""
  {
    if amountBoosts < DiscordBoostLvl1Cap then "/" + IntToString(DiscordBoostLvl1Cap)
    else if DiscordBoostLvl1Cap <= amountBoosts < DiscordBoostLvl2Cap then "/" + IntToString(DiscordBoostLvl2Cap)
    else if DiscordBoostLvl2Cap <= amountBoosts < DiscordBoostLvl3Cap then "/" + IntToString(DiscordBoostLvl3Cap)
    else ""
  }

  /** The shown cap is the smallest cap above the boost count; none is shown when every cap is reached. */
  lemma BoostLevelCapIsNextCap(amountBoosts: int)
    ensures BoostLevelCap(amountBoosts) == "" <==> forall k :: 0 <= k < |BoostCaps| ==> BoostCaps[k] <= amountBoosts
    ensures BoostLevelCap(amountBoosts) != "" ==>
      exists k :: 0 <= k < |BoostCaps| && amountBoosts < BoostCaps[k] &&
        (forall j :: 0 <= j < k ==> BoostCaps[j] <= amountBoosts) &&
        BoostLevelCap(amountBoosts) == "/" + IntToString(BoostCaps[k])
  {
    var r := BoostLevelCap(amountBoosts);
    if amountBoosts < DiscordBoostLvl1Cap {
      assert amountBoosts < BoostCaps[0] && r == "/" + IntToString(BoostCaps[0]);
    } else if amountBoosts < DiscordBoostLvl2Cap {
      assert amountBoosts < BoostCaps[1] && r == "/" + IntToString(BoostCaps[1]);
    } else if amountBoosts < DiscordBoostLvl3Cap {
      assert amountBoosts < BoostCaps[2] && r == "/" + IntToString(BoostCaps[2]);
    }
  }

  // ------------------------------------------------------------ counters

  /** `get_channel_counters`: all channels, then text channels, then voice channels. */
  function ChannelCounters(g: Guild): (r: seq<int>)
    ensures |r| == 3 && r[1] == g.textChannels && r[2] == g.voiceChannels
    ensures r[0] == r[1] + r[2]
  {
    var voice := g.voiceChannels;
    var text := g.textChannels;
    [voice + text, text, voice]
  }

  /** The number of members flagged as bots (`len(list(filter(lambda user: user.bot, ...)))`). */
  function CountBots(isBot: seq<bool>): (n: nat)
    ensures n <= |isBot|
    ensures (forall i :: 0 <= i < |isBot| ==> !isBot[i]) ==> n == 0
    ensures (forall i :: 0 <= i < |isBot| ==> isBot[i]) ==> n == |isBot|
  {
    if isBot == [] then 0 else (if isBot[0] then 1 else 0) + CountBots(isBot[1..])
  }

  lemma {:induction false} CountBotsAppend(a: seq<bool>, b: seq<bool>)
    ensures CountBots(a + b) == CountBots(a) + CountBots(b)
    decreases |a|
  {
    if a == [] {
      assert a + b == b;
    } else {
      assert (a + b)[1..] == a[1..] + b;
      CountBotsAppend(a[1..], b);
    }
  }

  /** `get_member_counters`: all members, then bots, then humans; bots and humans add up to all members. */
  function MemberCounters(g: Guild): (r: seq<int>)
    ensures |r| == 3 && r[0] == g.memberCount && r[1] == CountBots(g.memberIsBot)
    ensures r[1] + r[2] == r[0]
  {
    var bots := CountBots(g.memberIsBot);
    [g.memberCount, bots, g.memberCount - bots]
  }

  // ------------------------------------------------------------ features

  /** The German names of the known server features (the `dict_server_features` table), key first. */
  const ServerFeatureNames: seq<(string, string)> := [
    ("COMMUNITY", "Community-Server"),
    ("VIP_REGIONS", "VIP-Regionen"),
    ("VANITY_URL", "Vanity URL"),
    ("INVITE_SPLASH", "Invite Splash"),
    ("VERIFIED", "Verifiziert"),
    ("PARTNERED", "Discord-Partner"),
    ("MORE_EMOJI", "Mehr Emojis"),
    ("ROLE_ICONS", "Rollen-Icons"),
    ("DISCOVERABLE", "In Server-Browser"),
    ("FEATURABLE", "Featurable"),
    ("COMMERCE", "Kommerziell"),
    ("PUBLIC", "\U{D6}ffentlich"),
    ("NEWS", "News-Kan\U{E4}le"),
    ("BANNER", "Server-Banner"),
    ("ANIMATED_ICON", "Animiertes Icon"),
    ("PUBLIC_DISABLED", "Nicht \U{F6}ffentlich"),
    ("WELCOME_SCREEN_ENABLED", "Begr\U{FC}\U{DF}ungsbildschirm"),
    ("MEMBER_VERIFICATION_GATE_ENABLED", "Member Screening"),
    ("PREVIEW_ENABLED", "Servervorschau"),
    ("THREADS_ENABLED", "Threads"),
    ("PRIVATE_THREADS", "Private Threads"),
    ("NEW_THREAD_PERMISSIONS", "Neue Thread-Berechtigungen"),
    ("THREE_DAY_THREAD_ARCHIVE", "3-Tage-Archiv f\U{FC}r Threads"),
    ("SEVEN_DAY_THREAD_ARCHIVE", "7-Tage-Archiv f\U{FC}r Threads")]

  /** The name a dictionary of pairs gives `key`, the first matching pair winning. */
  function Lookup(table: seq<(string, string)>, key: string): (r: Option<string>)
    ensures r.None? <==> forall i :: 0 <= i < |table| ==> table[i].0 != key
    ensures r.Some? ==> exists i :: 0 <= i < |table| && table[i] == (key, r.value)
  {
    if table == [] then None
    else if table[0].0 == key then Some(table[0].1)
    else
      var r := Lookup(table[1..], key);
      assert r.Some? ==> exists i :: 0 <= i < |table[1..]| && table[1..][i] == (key, r.value);
      r
  }

  const NoFeatures: string := ":no_entry_sign: Keine"
  const BulletPoint: string := ":white_check_mark:"

  /** The displayed name of a feature: its name in `table` when known, else the feature as given. */
  function FeatureName(table: seq<(string, string)>, feature: string): (r: string)
    ensures Lookup(table, feature).Some? ==> r == Lookup(table, feature).value
    ensures Lookup(table, feature).None? ==> r == feature
  {
    match Lookup(table, feature)
    case Some(name) => name
    case None => feature
  }

  function FeatureLine(table: seq<(string, string)>, feature: string): string {
    BulletPoint + " " + FeatureName(table, feature)
  }

  function FeatureLines(table: seq<(string, string)>, features: seq<string>): (r: seq<string>)
    ensures |r| == |features|
    ensures forall i :: 0 <= i < |features| ==> r[i] == FeatureLine(table, features[i])
  {
    seq(|features|, i requires 0 <= i < |features| => FeatureLine(table, features[i]))
  }

  /** What `generate_features_list` returns with the names of `table`. */
  function FeaturesText(table: seq<(string, string)>, features: seq<string>): string {
    if features == [] then NoFeatures else Terminated(FeatureLines(table, features), "\n")
  }

  /** `generate_features_list`: the feature lines, each ending in a newline, or a "none" note. */
  method GenerateFeaturesList(features: seq<string>) returns (s: string)
    ensures s == FeaturesText(ServerFeatureNames, features)
    ensures features == [] <==> s == NoFeatures
  {
    if |features| == 0 {
      return NoFeatures;
    }
    ghost var table := ServerFeatureNames;
    s := "";
    var i := 0;
    while i < |features|
      invariant 0 <= i <= |features|
      invariant s == Terminated(FeatureLines(table, features[..i]), "\n")
    {
      var name := FeatureName(ServerFeatureNames, features[i]);
      FeatureLinesStep(table, features, i);
      var line := BulletPoint + " " + name;
      s := s + line + "\n";
      i := i + 1;
    }
    assert features[..i] == features;
    FeaturesTextNotNone(table, features);
  }

  lemma FeatureLinesStep(table: seq<(string, string)>, features: seq<string>, i: nat)
    requires i < |features|
    ensures Terminated(FeatureLines(table, features[..i + 1]), "\n") ==
      Terminated(FeatureLines(table, features[..i]), "\n") + FeatureLine(table, features[i]) + "\n"
  {
    var before, after := FeatureLines(table, features[..i]), FeatureLines(table, features[..i + 1]);
    assert features[..i + 1][..i] == features[..i];
    assert after == before + [after[i]];
    TerminatedAppend(before, after[i], "\n");
  }

  /** A non-empty list never renders as the "none" note: it ends with a newline. */
  lemma FeaturesTextNotNone(table: seq<(string, string)>, features: seq<string>)
    requires features != []
    ensures FeaturesText(table, features) != NoFeatures
    ensures EndsWith(FeaturesText(table, features), "\n")
  {
    var lines := FeatureLines(table, features);
    var last := lines[|lines| - 1];
    assert FeaturesText(table, features) == Terminated(lines[..|lines| - 1], "\n") + last + "\n";
    assert NoFeatures[|NoFeatures| - 1] == 'e';
  }

  /**
   * Read back line by line, the text lists the features in input order, one
   * per line, as long as no displayed name holds a newline.
   */
  lemma FeaturesTextLines(table: seq<(string, string)>, features: seq<string>)
    requires features != []
    requires forall i :: 0 <= i < |features| ==> '\n' !in FeatureName(table, features[i])
    ensures var lines := Split(FeaturesText(table, features), "\n");
      |lines| == |features| + 1 && lines[|features|] == "" &&
      forall i :: 0 <= i < |features| ==> lines[i] == BulletPoint + " " + FeatureName(table, features[i])
  {
    var lines := FeatureLines(table, features);
    assert forall i :: 0 <= i < |lines| ==> '\n' !in lines[i];
    SplitTerminated(lines, "\n");
  }

  // ---------------------------------------------------------- serverinfo

  /** The boosts field: the level, then the boost count with the cap of the next level. */
  function BoostsField(g: Guild): string {
    "__Level " + NatToString(g.premiumTier) + "__\n" + NatToString(g.premiumSubscriptionCount)
      + BoostLevelCap(g.premiumSubscriptionCount) + " Boosts"
  }

  /** The members field: total, bots and humans, as `get_member_counters` counts them. */
  function MembersField(g: Guild): string {
    var m := MemberCounters(g);
    "__Gesamt: " + IntToString(m[0]) + "__\nBots: " + IntToString(m[1]) + "\nMenschen: " + IntToString(m[2])
  }

  /** The channels field: total, text and voice, as `get_channel_counters` counts them. */
  function ChannelsField(g: Guild): string {
    var c := ChannelCounters(g);
    "__Gesamt: " + IntToString(c[0]) + "__\nText: " + IntToString(c[1]) + "\nSprach: " + IntToString(c[2])
  }

  function RolesField(g: Guild): string {
    "__Gesamt: " + NatToString(g.roles) + "__"
  }

  /**
   * `build_serverinfo_strings`: the six field texts of the `serverinfo` embed,
   * in the order owner, boosts, features, members, channels, roles.
   */
  method BuildServerinfoStrings(g: Guild) returns (r: seq<string>)
    ensures r == [g.owner, BoostsField(g), FeaturesText(ServerFeatureNames, g.features),
                  MembersField(g), ChannelsField(g), RolesField(g)]
  {
    var strFeatures := GenerateFeaturesList(g.features);
    r := [g.owner, BoostsField(g), strFeatures, MembersField(g), ChannelsField(g), RolesField(g)];
  }
}
