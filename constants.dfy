/** The settings and limits of `bot/constants.py` that the modelled logic uses. */
module Constants {

  /** `BOT_PREFIX` */
  const BotPrefix: string := "!"

  /** The keys of `INITIAL_EXTNS`, in the dictionary's order. */
  const ExtensionNames: seq<string> :=
    ["AdminCog", "CommunityCog", "RoleManagementCog", "ModerationCog", "UniversityCog", "UtilityCog", "MusicCog"]

  /** `INITIAL_EXTNS`: Cog name to the module that defines it. */
  const InitialExtensions: map<string, string> := map[
    "AdminCog" := "bot.admin.admin",
    "CommunityCog" := "bot.community.community",
    "RoleManagementCog" := "bot.role_management.role_management",
    "ModerationCog" := "bot.moderation.moderation",
    "UniversityCog" := "bot.university.university",
    "UtilityCog" := "bot.utility.utility",
    "MusicCog" := "bot.music.music"]

  const UrlDiscord: string := "https://discordapp.com"
  const UrlUfind: string := "https://ufind.univie.ac.at/de"
  const UrlUfindApi: string := "https://m-ufind.univie.ac.at"

  // Limits
  const LimitPins := 10
  const LimitHighlight := 15
  const LimitHighlightLookup := 30
  const LimitPurgeMessages := 200
  const LimitNewMembers := 24
  const LimitNicknames := 12
  const LimitWarningsLvl1 := 3
  const LimitWarningsLvl2 := 5
  const LimitWarningsLvl3 := 6
  const LimitCommunityChannels := 20
  const LimitSongQueue := 300

  // Timeouts in seconds
  const TimeoutUserInteraction := 180
  const TimeoutUserSelection := 30
  const TimeoutInformation := 15

  // Server boost thresholds of the three levels
  const DiscordBoostLvl1Cap := 2
  const DiscordBoostLvl2Cap := 7
  const DiscordBoostLvl3Cap := 14

  // Emojis
  const EmojiAvailable: string := "\U{1F7E2}"
  const EmojiUnavailable: string := "\U{1F534}"
  const EmojiModmailDone: string := "\U{2705}"
  const EmojiModmailAssign: string := "\U{1F4DD}"
  const EmojiUpvote: string := "\U{2B06}\U{FE0F}"
  const EmojiDownvote: string := "\U{2B07}\U{FE0F}"
  const ZeroWidthSpace: string := "\U{200B}"
  const EmojiChannelNameSeparator: string := "\U{1F539}"
}
