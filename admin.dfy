/**
 * `bot/admin/admin.py`: the text rules of the admin cog (the `embed` title
 * split, pastebin links, Cog names and the Cog overview), the lookup of an
 * extension to (un)load, and the bot-only mode of a channel.
 */
module Admin {
  import opened Wrappers
  import opened Text
  import opened Constants
  import opened Persistence

  // ------------------------------------------------------------------ embed

  /** `title, description = text.split('|')` unpacks exactly two parts, otherwise a ValueError. */
  datatype EmbedError = ValueError

  /** The `embed` command: title and description of the posted embed. */
  function EmbedParts(text: string): (r: Result<(string, string), EmbedError>)
    ensures '|' !in text ==> r == Ok(("", text))
    ensures r.Err? <==> Count(text, '|') >= 2
    ensures r.Ok? && '|' in text ==>
      r.value.0 + "|" + r.value.1 == text && '|' !in r.value.0 && '|' !in r.value.1
  {
    ContainsChar(text, '|');
    SplitChar(text, '|');
    if Contains(text, "|") then
      var parts := Split(text, "|");
      if |parts| == 2 then
        assert Join("|", parts) == parts[0] + "|" + parts[1];
        Ok((parts[0], parts[1]))
      else Err(ValueError)
    else Ok(("", text))
  }

  // --------------------------------------------------------------- pastebin

  /** `is_pastebin_link`: mentions pastebin.com and holds no JSON brace. */
  function IsPastebinLink(s: string): (r: bool)
    ensures r <==> Contains(s, "pastebin.com") && '{' !in s && '}' !in s
  {
    ContainsChar(s, '{');
    ContainsChar(s, '}');
    Contains(s, "pastebin.com") && !(Contains(s, "{") || Contains(s, "}"))
  }

  /**
   * The URL rewrite of `parse_pastebin_link`: a URL without "raw" gets "raw/"
   * right after its first ".com/" (after its fourth character when there is
   * none, as `find` answers -1); other URLs are kept.
   */
  function RawUrl(url: string): (r: string)
    ensures Contains(url, "raw") ==> r == url
    ensures !Contains(url, "raw") && Find(url, ".com/") >= 0 ==>
      var k := Find(url, ".com/") + 5;
      |r| == |url| + 4 && r[..k] == url[..k] && r[k..k + 4] == "raw/" && r[k + 4..] == url[k..]
    ensures !Contains(url, "raw") && Find(url, ".com/") < 0 ==> r == Take(url, 4) + "raw/" + Drop(url, 4)
    ensures Contains(r, "raw")
  {
    if Contains(url, "raw") then url
    else
      var splitIndex := Find(url, ".com/");
      var r := Take(url, splitIndex + 5) + "raw/" + Drop(url, splitIndex + 5);
      assert r[|Take(url, splitIndex + 5)|..|Take(url, splitIndex + 5)| + 3] == "raw";
      ContainsOccurrence(r, "raw", |Take(url, splitIndex + 5)|);
      r
  }

  /** Rewriting a rewritten link changes nothing, so raw links and page links meet at one URL. */
  lemma RawUrlIdempotent(url: string)
    ensures RawUrl(RawUrl(url)) == RawUrl(url)
  {
  }

  // -------------------------------------------------------------- Cog names

  /** The name without a trailing "cog" in any letter case. */
  function CogStem(name: string): string {
    if EndsWith(Lower(name), "cog") then name[..|name| - 3] else name
  }

  /** `_get_cog_name`: capitalized, with exactly one "Cog" at the end. */
  function CogName(name: string): (r: string)
    ensures EndsWith(r, "Cog")
    ensures r == Capitalize(CogStem(name)) + "Cog"
  {
    var cogName := Capitalize(name);
    CogNameCases(name);
    if !(EndsWith(cogName, "Cog") || EndsWith(cogName, "cog")) then cogName + "Cog"
    else if EndsWith(cogName, "cog") then cogName[..|cogName| - 3] + "Cog"
    else cogName
  }

  /** The three branches of `_get_cog_name` against the stem. */
  lemma CogNameCases(name: string)
    ensures var c := Capitalize(name);
      if EndsWith(Lower(name), "cog") then
        (|name| == 3 ==> c == "Cog") && (|name| > 3 ==> EndsWith(c, "cog") && c[..|c| - 3] == Capitalize(name[..|name| - 3]))
      else !EndsWith(c, "Cog") && !EndsWith(c, "cog")
  {
    if EndsWith(Lower(name), "cog") {
      if |name| == 3 {
        CapitalizeBareCog(name);
      } else {
        CapitalizeLongCog(name);
      }
    } else {
      CapitalizeNoCog(name);
    }
  }

  lemma CapitalizeBareCog(name: string)
    requires |name| == 3 && EndsWith(Lower(name), "cog")
    ensures Capitalize(name) == "Cog"
  {
    var c := Capitalize(name);
    assert Lower(name) == "cog";
    assert c[1..] == Lower(name[1..]);
    LowerSlice(name, 1, 3);
    assert c[0] == ToUpperChar(name[0]);
    assert ToLowerChar(name[0]) == 'c';
    assert c == [c[0]] + c[1..];
  }

  lemma CapitalizeLongCog(name: string)
    requires |name| > 3 && EndsWith(Lower(name), "cog")
    ensures var c := Capitalize(name);
      EndsWith(c, "cog") && c[..|c| - 3] == Capitalize(name[..|name| - 3])
  {
    var c := Capitalize(name);
    var n := |name|;
    assert Lower(name)[n - 3..] == "cog";
    LowerSlice(name, 1, n);
    assert c[n - 3..] == Lower(name)[n - 3..];
    CapitalizePrefix(name, n - 3);
  }

  lemma CapitalizeNoCog(name: string)
    requires !EndsWith(Lower(name), "cog")
    ensures !EndsWith(Capitalize(name), "Cog") && !EndsWith(Capitalize(name), "cog")
  {
    var c := Capitalize(name);
    LowerCapitalize(name);
    LowerEndsWith(c, "cog");
    LowerEndsWith(c, "Cog");
    assert Lower("Cog") == "cog" && Lower("cog") == "cog";
  }

  /** Lowering keeps a suffix a suffix. */
  lemma LowerEndsWith(s: string, p: string)
    ensures EndsWith(s, p) ==> EndsWith(Lower(s), Lower(p))
  {
    if EndsWith(s, p) {
      LowerSlice(s, |s| - |p|, |s|);
    }
  }

  /** Normalizing a normalized Cog name changes nothing. */
  lemma CogNameIdempotent(name: string)
    ensures CogName(CogName(name)) == CogName(name)
  {
    var s := Capitalize(CogStem(name));
    StemOfSuffixed(s);
    CapitalizeIdempotent(CogStem(name));
  }

  /** The stem of a name with "Cog" appended is the name. */
  lemma StemOfSuffixed(s: string)
    ensures CogStem(s + "Cog") == s
  {
    var x := s + "Cog";
    LowerAppend(s, "Cog");
    assert Lower("Cog") == "cog";
    assert Lower(x)[|x| - 3..] == "cog";
    assert x[..|x| - 3] == s;
  }

  // --------------------------------------------------- loading extensions

  /** `constants.INITIAL_EXTNS[name]` with a missing key raising KeyError. */
  datatype LookupError = KeyError

  /** The module that `load`, `unload` and `reload` hand to the bot for a typed Cog name. */
  function ExtensionModule(name: string): (r: Result<string, LookupError>)
    ensures r.Ok? <==> CogName(name) in InitialExtensions
    ensures r.Ok? ==> r.value == InitialExtensions[CogName(name)]
  {
    var cogName := CogName(name);
    if cogName in InitialExtensions then Ok(InitialExtensions[cogName]) else Err(KeyError)
  }

  /**
   * No input reaches `RoleManagementCog`: the normalized name is lower case
   * after its first letter, but the key has an upper-case 'M' inside.
   */
  lemma RoleManagementUnreachable(name: string)
    ensures CogName(name) != "RoleManagementCog"
    ensures ExtensionModule(name) != Ok(InitialExtensions["RoleManagementCog"])
  {
    CogNameNotRoleManagement(name);
    OtherModulesDiffer(CogName(name));
  }

  /** The fifth letter of a normalized name is never upper case, unlike the 'M' of "RoleManagementCog". */
  lemma CogNameNotRoleManagement(name: string)
    ensures CogName(name) != "RoleManagementCog"
  {
    var stem := CogStem(name);
    var c := CogName(name);
    if |stem| >= 5 {
      assert c[4] == Capitalize(stem)[4] == Lower(stem[1..])[3];
      NeverUpperAfterLowering(stem[4]);
    }
    assert "RoleManagementCog"[4] == 'M';
  }

  /** Lowering never yields an upper-case letter. */
  lemma NeverUpperAfterLowering(x: char)
    ensures !IsUpperLetter(ToLowerChar(x))
  {
  }

  /** The module of `RoleManagementCog` belongs to no other key. */
  lemma OtherModulesDiffer(k: string)
    ensures k in InitialExtensions && k != "RoleManagementCog" ==>
      InitialExtensions[k] != InitialExtensions["RoleManagementCog"]
  {
  }

  /** The key of `ExtensionNames` equal to `lowered` up to letter case, if any. */
  function FindCog(keys: seq<string>, lowered: string): (r: Option<string>)
    ensures r.Some? ==> r.value in keys && Lower(r.value) == lowered
    ensures r.None? ==> forall k :: k in keys ==> Lower(k) != lowered
  {
    if keys == [] then None
    else if Lower(keys[0]) == lowered then Some(keys[0])
    else FindCog(keys[1..], lowered)
  }

  /** The lookup with the key compared regardless of letter case: every Cog can be (un)loaded. */
  function ExtensionModuleIgnoringCase(name: string): (r: Result<string, LookupError>)
    ensures r.Ok? ==> exists k :: k in InitialExtensions && Lower(k) == Lower(CogName(name)) && r.value == InitialExtensions[k]
  {
    match FindCog(ExtensionNames, Lower(CogName(name)))
    case None => Err(KeyError)
    case Some(k) => Ok(InitialExtensions[k])
  }

  /** A name ending in "cog" in any case normalizes to itself up to letter case. */
  lemma LowerCogName(name: string)
    requires EndsWith(Lower(name), "cog")
    ensures Lower(CogName(name)) == Lower(name)
  {
    var stem := name[..|name| - 3];
    LowerCapitalize(stem);
    LowerAppend(Capitalize(stem), "Cog");
    assert Lower("Cog") == "cog";
    LowerSlice(name, 0, |name| - 3);
    assert name[..|name|] == name;
    assert Lower(name) == Lower(name)[..|name| - 3] + Lower(name)[|name| - 3..];
  }

  /** The keys stay apart when letter case is ignored. */
  lemma ExtensionNamesDistinctIgnoringCase(i: nat, j: nat)
    requires i < |ExtensionNames| && j < |ExtensionNames| && i < j
    ensures Lower(ExtensionNames[i]) != Lower(ExtensionNames[j])
  {
    var a, b := ExtensionNames[i], ExtensionNames[j];
    if |a| == |b| {
      assert Lower(a)[0] == ToLowerChar(a[0]) && Lower(b)[0] == ToLowerChar(b[0]);
    }
  }

  /** Typing a Cog's own name finds that Cog, `RoleManagementCog` included. */
  lemma EveryCogReachableIgnoringCase(i: nat)
    requires i < |ExtensionNames|
    ensures ExtensionModuleIgnoringCase(ExtensionNames[i]) == Ok(InitialExtensions[ExtensionNames[i]])
  {
    var k := ExtensionNames[i];
    ExtensionNamesEndInCog(i);
    LowerSuffixCog(k);
    LowerCogName(k);
    FindCogFirst(ExtensionNames, i, Lower(k));
  }

  lemma ExtensionNamesEndInCog(i: nat)
    requires i < |ExtensionNames|
    ensures EndsWith(ExtensionNames[i], "Cog")
  {
  }

  /** A name ending in "Cog" ends in "cog" once lowered. */
  lemma LowerSuffixCog(k: string)
    requires EndsWith(k, "Cog")
    ensures EndsWith(Lower(k), "cog")
  {
    LowerSlice(k, |k| - 3, |k|);
    assert Lower("Cog") == "cog";
  }

  lemma {:induction false} FindCogFirst(keys: seq<string>, i: nat, lowered: string)
    requires |keys| <= |ExtensionNames| && keys == ExtensionNames[|ExtensionNames| - |keys|..]
    requires |ExtensionNames| - |keys| <= i < |ExtensionNames| && Lower(ExtensionNames[i]) == lowered
    ensures FindCog(keys, lowered) == Some(ExtensionNames[i])
    decreases |keys|
  {
    var start := |ExtensionNames| - |keys|;
    assert keys[0] == ExtensionNames[start];
    if start < i {
      ExtensionNamesDistinctIgnoringCase(start, i);
      assert keys[1..] == ExtensionNames[start + 1..];
      FindCogFirst(keys[1..], i, lowered);
    }
  }

  // ---------------------------------------------------------- Cog overview

  /** One overview line: the status emoji, an arrow and the name without its "Cog". */
  function CogLine(key: string, loaded: set<string>): string {
    (if key in loaded then EmojiAvailable else EmojiUnavailable) + " --> " + Take(key, -3)
  }

  function CogLines(keys: seq<string>, loaded: set<string>): (r: seq<string>)
    ensures |r| == |keys|
    ensures forall i :: 0 <= i < |keys| ==> r[i] == CogLine(keys[i], loaded)
  {
    seq(|keys|, i requires 0 <= i < |keys| => CogLine(keys[i], loaded))
  }

  /** `_create_cogs_embed_string`: one newline-terminated line per Cog of `INITIAL_EXTNS`, in order. */
  method CreateCogsEmbedString(loaded: set<string>) returns (s: string)
    ensures s == Terminated(CogLines(ExtensionNames, loaded), "\n")
  {
    s := "";
    var keys := ExtensionNames;
    var i := 0;
    while i < |keys|
      invariant 0 <= i <= |keys|
      invariant s == Terminated(CogLines(keys[..i], loaded), "\n")
    {
      var cog := keys[i];
      var line: string;
      if cog in loaded {
        line := EmojiAvailable;
      } else {
        line := EmojiUnavailable;
      }
      line := line + " --> " + Take(cog, -3);
      CogLinesStep(keys, i, loaded);
      s := s + line + "\n";
      i := i + 1;
    }
    assert keys[..i] == keys;
  }

  lemma CogLinesStep(keys: seq<string>, i: nat, loaded: set<string>)
    requires i < |keys|
    ensures Terminated(CogLines(keys[..i + 1], loaded), "\n") ==
      Terminated(CogLines(keys[..i], loaded), "\n") + CogLine(keys[i], loaded) + "\n"
  {
    assert CogLines(keys[..i + 1], loaded) == CogLines(keys[..i], loaded) + [CogLine(keys[i], loaded)];
    TerminatedAppend(CogLines(keys[..i], loaded), CogLine(keys[i], loaded), "\n");
  }

  /** A line shows the available emoji exactly when its Cog is loaded. */
  lemma CogLineStatus(key: string, loaded: set<string>)
    ensures StartsWith(CogLine(key, loaded), EmojiAvailable) <==> key in loaded
  {
    if key !in loaded {
      assert CogLine(key, loaded)[0] == EmojiUnavailable[0];
    }
  }

  /**
   * Reading the overview back: split at newlines it gives the seven lines of
   * `INITIAL_EXTNS` in order, each saying whether its Cog is loaded.
   */
  lemma CogsOverviewLines(loaded: set<string>)
    ensures var lines := Split(Terminated(CogLines(ExtensionNames, loaded), "\n"), "\n");
      |lines| == |ExtensionNames| + 1 && lines[|ExtensionNames|] == "" &&
      forall i :: 0 <= i < |ExtensionNames| ==>
        lines[i] == CogLine(ExtensionNames[i], loaded) &&
        (StartsWith(lines[i], EmojiAvailable) <==> ExtensionNames[i] in loaded)
  {
    var ls := CogLines(ExtensionNames, loaded);
    forall k | 0 <= k < |ls| ensures '\n' !in ls[k] {
      var key := ExtensionNames[k];
      assert '\n' !in key;
      assert '\n' !in Take(key, -3);
    }
    SplitTerminated(ls, "\n");
    forall i | 0 <= i < |ExtensionNames| ensures StartsWith(ls[i], EmojiAvailable) <==> ExtensionNames[i] in loaded {
      CogLineStatus(ExtensionNames[i], loaded);
    }
  }

  // -------------------------------------------------------------- bot-only

  /** The title of the embed that announces the new mode. */
  function BotOnlyTitle(enabled: bool): string {
    "Der Bot-only Mode wurde f\U{FC}r diesen Channel " + (if enabled then "aktiviert" else "deaktiviert")
  }

  /**
   * `botonly`: the target is the given channel or else the current one; its
   * bot-only mark is flipped and the announcement names the new state.
   */
  method BotOnly(db: DatabaseConnector, channel: Option<int>, current: int) returns (title: string)
    requires db.Valid()
    modifies db`botOnly
    ensures db.Valid()
    ensures var target := if channel.Some? then channel.value else current;
      db.IsBotOnly(target) == !old(db.IsBotOnly(target)) &&
      db.botOnly == (if old(db.IsBotOnly(target)) then old(db.botOnly) - {target} else old(db.botOnly) + {target}) &&
      title == BotOnlyTitle(db.IsBotOnly(target))
  {
    var target := if channel.Some? then channel.value else current;
    var isChannelBotOnly := db.IsBotOnly(target);
    if isChannelBotOnly {
      db.DeactivateBotOnly(target);
    } else {
      db.ActivateBotOnly(target);
    }
    var isEnabledString := if !isChannelBotOnly then "aktiviert" else "deaktiviert";
    title := "Der Bot-only Mode wurde f\U{FC}r diesen Channel " + isEnabledString;
  }

  /** `on_message`: a message is deleted exactly when its author is not a bot and its channel is bot-only. */
  method OnMessageDeletes(db: DatabaseConnector, authorIsBot: bool, channelId: int) returns (delete: bool)
    ensures delete <==> !authorIsBot && channelId in db.botOnly
    ensures authorIsBot ==> !delete
  {
    delete := !authorIsBot && db.IsBotOnly(channelId);
  }
}
