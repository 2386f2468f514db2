/**
 * `bot/role_management/role_management.py`: members toggle whitelisted module
 * roles on themselves with `module`, get an overview of what changed, and the
 * bot owner manages reaction roles on messages of the role channel.
 *
 * A member's roles are a set of role ids. The role converter of discord.py is
 * a map from role names to ids; the reactions on a message are the list of
 * their emojis.
 */
module RoleManagement {
  import opened Wrappers
  import opened Text
  import opened Queries
  import opened Persistence

  /** A server member; the only state the model keeps is the set of role ids they hold. */
  class Member {
    var roles: set<int>

    constructor (roles: set<int>)
      ensures this.roles == roles
    {
      this.roles := roles;
    }
  }

  predicate Distinct<T(==)>(xs: seq<T>) {
    forall i, j :: 0 <= i < j < |xs| ==> xs[i] != xs[j]
  }

  lemma DistinctSnoc<T>(xs: seq<T>, x: T)
    requires Distinct(xs + [x])
    ensures Distinct(xs) && x !in xs
  {
    forall i, j | 0 <= i < j < |xs| ensures xs[i] != xs[j] {
      assert (xs + [x])[i] == xs[i] && (xs + [x])[j] == xs[j];
    }
    forall i | 0 <= i < |xs| ensures xs[i] != x {
      assert (xs + [x])[i] == xs[i] && (xs + [x])[|xs|] == x;
    }
  }

  // -------------------------------------------------------------- toggling

  /** A held role is removed, any other one is added. */
  function Toggle(roles: set<int>, role: int): (r: set<int>)
    ensures role in r <==> role !in roles
    ensures forall x :: x != role ==> (x in r <==> x in roles)
  {
    if role in roles then roles - {role} else roles + {role}
  }

  /** Toggling twice restores the set: running `unique` twice leaves the message's flag as it was. */
  lemma ToggleTwice(roles: set<int>, role: int)
    ensures Toggle(Toggle(roles, role), role) == roles
  {
  }

  /** The roles after toggling each of `xs`, in order. */
  function ToggleEach(roles: set<int>, xs: seq<int>): set<int> {
    if xs == [] then roles else Toggle(ToggleEach(roles, xs[..|xs| - 1]), xs[|xs| - 1])
  }

  /** Toggling never touches a role outside the toggled ones. */
  lemma {:induction false} ToggleEachOthers(roles: set<int>, xs: seq<int>, x: int)
    requires x !in xs
    ensures x in ToggleEach(roles, xs) <==> x in roles
    decreases |xs|
  {
    if xs != [] {
      assert xs[..|xs| - 1] <= xs;
      ToggleEachOthers(roles, xs[..|xs| - 1], x);
    }
  }

  /** Toggling distinct roles flips exactly those roles. */
  lemma {:induction false} ToggleEachDistinct(roles: set<int>, xs: seq<int>, x: int)
    requires Distinct(xs)
    ensures x in ToggleEach(roles, xs) <==> ((x in roles) != (x in xs))
    decreases |xs|
  {
    if xs != [] {
      var front, last := xs[..|xs| - 1], xs[|xs| - 1];
      assert xs == front + [last];
      DistinctSnoc(front, last);
      ToggleEachDistinct(roles, front, x);
    }
  }

  // --------------------------------------------------------- toggle_module

  /** The three lists of the overview: upper-cased module names. */
  datatype ModuleOutcome = ModuleOutcome(added: seq<string>, removed: seq<string>, errors: seq<string>)

  /** The member's roles together with the lists built so far. */
  datatype Toggled = Toggled(roles: set<int>, outcome: ModuleOutcome)

  /**
   * The role a module name stands for: the role the converter finds for the
   * upper-cased name, provided it is whitelisted as a module role; `None` is
   * the `BadArgument` that puts the name on the error list.
   */
  function ModuleRole(roleByName: map<string, int>, whitelist: set<int>, abbrev: string): (r: Option<int>)
    ensures r.Some? <==> Upper(abbrev) in roleByName && roleByName[Upper(abbrev)] in whitelist
    ensures r.Some? ==> r.value == roleByName[Upper(abbrev)] && r.value in whitelist
  {
    var name := Upper(abbrev);
    if name in roleByName && roleByName[name] in whitelist then Some(roleByName[name]) else None
  }

  /** One pass of the loop of `toggle_module`. */
  function Step(t: Toggled, roleByName: map<string, int>, whitelist: set<int>, abbrev: string): Toggled {
    var name := Upper(abbrev);
    match ModuleRole(roleByName, whitelist, abbrev)
    case None => t.(outcome := t.outcome.(errors := t.outcome.errors + [name]))
    case Some(role) =>
      if role in t.roles then Toggled(t.roles - {role}, t.outcome.(removed := t.outcome.removed + [name]))
      else Toggled(t.roles + {role}, t.outcome.(added := t.outcome.added + [name]))
  }

  /** The loop of `toggle_module` over `modules`, starting from the member's `roles` and empty lists. */
  function ToggleAll(roles: set<int>, roleByName: map<string, int>, whitelist: set<int>, modules: seq<string>): (t: Toggled)
    ensures |t.outcome.added| + |t.outcome.removed| + |t.outcome.errors| == |modules|
    decreases |modules|
  {
    if modules == [] then Toggled(roles, ModuleOutcome([], [], []))
    else Step(ToggleAll(roles, roleByName, whitelist, modules[..|modules| - 1]), roleByName, whitelist, modules[|modules| - 1])
  }

  /** The roles the modules stand for, in order, skipping the names that fail. */
  function ResolvedRoles(roleByName: map<string, int>, whitelist: set<int>, modules: seq<string>): (r: seq<int>)
    ensures |r| <= |modules|
    ensures forall x :: x in r ==> x in whitelist
    decreases |modules|
  {
    if modules == [] then []
    else
      ResolvedRoles(roleByName, whitelist, modules[..|modules| - 1]) +
      (match ModuleRole(roleByName, whitelist, modules[|modules| - 1]) case None => [] case Some(role) => [role])
  }

  /** The loop toggles exactly the resolved roles, in order. */
  lemma {:induction false} ToggleAllRoles(roles: set<int>, roleByName: map<string, int>, whitelist: set<int>, modules: seq<string>)
    ensures ToggleAll(roles, roleByName, whitelist, modules).roles == ToggleEach(roles, ResolvedRoles(roleByName, whitelist, modules))
    decreases |modules|
  {
    if modules != [] {
      var front := modules[..|modules| - 1];
      ToggleAllRoles(roles, roleByName, whitelist, front);
      var before := ResolvedRoles(roleByName, whitelist, front);
      var prev := ToggleAll(roles, roleByName, whitelist, front);
      assert ToggleAll(roles, roleByName, whitelist, modules) == Step(prev, roleByName, whitelist, modules[|modules| - 1]);
      match ModuleRole(roleByName, whitelist, modules[|modules| - 1])
      case None =>
        assert ResolvedRoles(roleByName, whitelist, modules) == before;
      case Some(role) =>
        var after := before + [role];
        assert ResolvedRoles(roleByName, whitelist, modules) == after;
        assert after[..|after| - 1] == before;
        assert ToggleEach(roles, after) == Toggle(ToggleEach(roles, before), role);
    }
  }

  /** A role no module name resolves to (unknown or not whitelisted) is neither added nor removed. */
  lemma ToggleAllKeepsOthers(roles: set<int>, roleByName: map<string, int>, whitelist: set<int>, modules: seq<string>, x: int)
    requires x !in ResolvedRoles(roleByName, whitelist, modules)
    ensures x in ToggleAll(roles, roleByName, whitelist, modules).roles <==> x in roles
  {
    ToggleAllRoles(roles, roleByName, whitelist, modules);
    ToggleEachOthers(roles, ResolvedRoles(roleByName, whitelist, modules), x);
  }

  /** Every name on the three lists is the upper-cased form of one of the modules; `k` is its position. */
  lemma {:induction false} ToggleAllNames(roles: set<int>, roleByName: map<string, int>, whitelist: set<int>,
                                          modules: seq<string>, x: string) returns (k: nat)
    requires var o := ToggleAll(roles, roleByName, whitelist, modules).outcome;
      x in o.added || x in o.removed || x in o.errors
    ensures k < |modules| && x == Upper(modules[k])
    decreases |modules|
  {
    var n := |modules| - 1;
    var front := modules[..n];
    var before := ToggleAll(roles, roleByName, whitelist, front).outcome;
    if x in before.added || x in before.removed || x in before.errors {
      k := ToggleAllNames(roles, roleByName, whitelist, front, x);
      assert front[k] == modules[k];
    } else {
      k := n;
    }
  }

  /** The module names are distinct after upper-casing. */
  predicate DistinctNames(modules: seq<string>) {
    forall k, l :: 0 <= k < l < |modules| ==> Upper(modules[k]) != Upper(modules[l])
  }

  /**
   * Where the name of a module ends up: on the error list exactly when it does
   * not resolve, otherwise on exactly one of the added and removed lists.
   */
  predicate Placed(o: ModuleOutcome, name: string, role: Option<int>) {
    (name in o.errors <==> role.None?) &&
    ((name in o.added || name in o.removed) <==> role.Some?) &&
    !(name in o.added && name in o.removed)
  }

  /**
   * With distinct upper-cased names, the loop places every module exactly
   * once; when the resolved roles are distinct too, a module is added exactly
   * when the member did not hold its role beforehand, and removed when they did.
   */
  lemma {:induction false} ToggleAllPlacement(roles: set<int>, roleByName: map<string, int>, whitelist: set<int>, modules: seq<string>)
    requires DistinctNames(modules)
    ensures var o := ToggleAll(roles, roleByName, whitelist, modules).outcome;
      forall k :: 0 <= k < |modules| ==> Placed(o, Upper(modules[k]), ModuleRole(roleByName, whitelist, modules[k]))
    ensures Distinct(ResolvedRoles(roleByName, whitelist, modules)) ==>
      var o := ToggleAll(roles, roleByName, whitelist, modules).outcome;
      forall k :: 0 <= k < |modules| ==>
        (Upper(modules[k]) in o.added <==>
          ModuleRole(roleByName, whitelist, modules[k]).Some? && ModuleRole(roleByName, whitelist, modules[k]).value !in roles)
    decreases |modules|
  {
    if modules != [] {
      var n := |modules| - 1;
      var front, last := modules[..n], modules[n];
      assert forall k :: 0 <= k < n ==> front[k] == modules[k];
      assert DistinctNames(front);
      ToggleAllPlacement(roles, roleByName, whitelist, front);
      var prev := ToggleAll(roles, roleByName, whitelist, front);
      var o := ToggleAll(roles, roleByName, whitelist, modules).outcome;
      var name, role := Upper(last), ModuleRole(roleByName, whitelist, last);
      if name in prev.outcome.added || name in prev.outcome.removed || name in prev.outcome.errors {
        var k := ToggleAllNames(roles, roleByName, whitelist, front, name);
        assert false;
      }
      assert o.added == prev.outcome.added + (if role.Some? && role.value !in prev.roles then [name] else []);
      assert o.removed == prev.outcome.removed + (if role.Some? && role.value in prev.roles then [name] else []);
      assert o.errors == prev.outcome.errors + (if role.None? then [name] else []);
      forall k | 0 <= k < |modules|
        ensures Placed(o, Upper(modules[k]), ModuleRole(roleByName, whitelist, modules[k]))
      {
        if k < n {
          assert Upper(modules[k]) != name;
        }
      }
      var resolved := ResolvedRoles(roleByName, whitelist, modules);
      var before := ResolvedRoles(roleByName, whitelist, front);
      if Distinct(resolved) {
        if role.Some? {
          assert resolved == before + [role.value];
          DistinctSnoc(before, role.value);
          ToggleAllKeepsOthers(roles, roleByName, whitelist, front, role.value);
        } else {
          assert resolved == before;
        }
        forall k | 0 <= k < |modules|
          ensures Upper(modules[k]) in o.added <==>
            ModuleRole(roleByName, whitelist, modules[k]).Some? && ModuleRole(roleByName, whitelist, modules[k]).value !in roles
        {
          if k < n {
            assert Upper(modules[k]) != name;
          }
        }
      }
    }
  }

  /** The loop of `toggle_module` (lines 138-157), on the member's roles and three lists. */
  method ToggleModules(member: Member, db: DatabaseConnector, roleByName: map<string, int>, modules: seq<string>)
    returns (outcome: ModuleOutcome)
    modifies member
    ensures Toggled(member.roles, outcome) == ToggleAll(old(member.roles), roleByName, db.moduleRoles, modules)
  {
    ghost var start := member.roles;
    var added, removed, errors := [], [], [];
    for i := 0 to |modules|
      invariant Toggled(member.roles, ModuleOutcome(added, removed, errors)) ==
        ToggleAll(start, roleByName, db.moduleRoles, modules[..i])
    {
      var name := Upper(modules[i]);
      assert modules[..i + 1][..i] == modules[..i];
      if name in roleByName && db.CheckModuleRole(roleByName[name]) {
        var role := roleByName[name];
        if role in member.roles {
          member.roles := member.roles - {role};
          removed := removed + [name];
        } else {
          member.roles := member.roles + {role};
          added := added + [name];
        }
      } else {
        errors := errors + [name];
      }
    }
    assert modules[..|modules|] == modules;
    outcome := ModuleOutcome(added, removed, errors);
  }

  /**
   * `toggle_module`: outside the role channel nothing changes and no overview
   * is sent. Otherwise the distinct words of the argument are processed, in
   * the order `list(set(...))` happens to give them (`modules`), and the member
   * gets the overview of the outcome.
   */
  method ToggleModule(member: Member, db: DatabaseConnector, roleChannelId: int, channelId: int,
                      strModules: string, modules: seq<string>, roleByName: map<string, int>)
    returns (overview: Option<ModuleEmbed>)
    requires Distinct(modules)
    requires forall w :: w in modules <==> w in SplitWhitespace(strModules)
    modifies member
    ensures channelId != roleChannelId ==> overview.None? && member.roles == old(member.roles)
    ensures channelId == roleChannelId ==>
      var t := ToggleAll(old(member.roles), roleByName, db.moduleRoles, modules);
      member.roles == t.roles && overview == Some(ModuleEmbedOf(t.outcome.added, t.outcome.removed, t.outcome.errors))
  {
    if channelId != roleChannelId {
      return None;
    }
    var outcome := ToggleModules(member, db, roleByName, modules);
    var embed := CreateEmbedModuleRoles(outcome.added, outcome.removed, outcome.errors);
    overview := Some(embed);
  }

  /**
   * The case variants "abc" and "ABC" are two distinct words, so both stay
   * after the duplicates are removed; both stand for the role "ABC", which is
   * toggled twice and ends where it started, while the overview reports it as
   * added and as removed.
   */
  lemma CaseVariantsToggledTwice(roles: set<int>, roleByName: map<string, int>, whitelist: set<int>)
    requires "ABC" in roleByName && roleByName["ABC"] in whitelist
    ensures Distinct(["abc", "ABC"])
    ensures var t := ToggleAll(roles, roleByName, whitelist, ["abc", "ABC"]);
      t.roles == roles && t.outcome.added == ["ABC"] && t.outcome.removed == ["ABC"] && t.outcome.errors == []
  {
    assert "abc" != "ABC" by { assert "abc"[0] != "ABC"[0]; }
    assert Upper("abc") == "ABC";
    assert Upper("ABC") == "ABC";
    assert ["abc", "ABC"][..1] == ["abc"];
    assert ["abc"][..0] == [];
    var role := roleByName["ABC"];
    var t := ToggleAll(roles, roleByName, whitelist, ["abc", "ABC"]);
    if role in roles {
      assert t.roles == roles - {role} + {role};
    } else {
      assert t.roles == roles + {role} - {role};
    }
  }

  /**
   * `toggle_module` with the duplicates removed after upper-casing,
   * `list(set(m.upper() for m in str_modules.split()))`: every name given
   * lands on exactly one list.
   */
  method ToggleModuleByUpperName(member: Member, db: DatabaseConnector, roleChannelId: int, channelId: int,
                                 strModules: string, modules: seq<string>, roleByName: map<string, int>)
    returns (overview: Option<ModuleEmbed>, outcome: Option<ModuleOutcome>)
    requires Distinct(modules)
    requires forall w :: w in modules <==> exists m :: m in SplitWhitespace(strModules) && w == Upper(m)
    modifies member
    ensures channelId != roleChannelId ==> overview.None? && outcome.None? && member.roles == old(member.roles)
    ensures channelId == roleChannelId ==>
      var t := ToggleAll(old(member.roles), roleByName, db.moduleRoles, modules);
      member.roles == t.roles && outcome == Some(t.outcome) &&
      overview == Some(ModuleEmbedOf(t.outcome.added, t.outcome.removed, t.outcome.errors))
    ensures outcome.Some? ==> forall m :: m in SplitWhitespace(strModules) ==>
      Placed(outcome.value, Upper(m), ModuleRole(roleByName, db.moduleRoles, m))
  {
    if channelId != roleChannelId {
      return None, None;
    }
    ghost var start := member.roles;
    var toggled := ToggleModules(member, db, roleByName, modules);
    forall k | 0 <= k < |modules| ensures Upper(modules[k]) == modules[k] {
      assert modules[k] in modules;
      var m :| m in SplitWhitespace(strModules) && modules[k] == Upper(m);
      UpperIdempotent(m);
    }
    ToggleAllPlacement(start, roleByName, db.moduleRoles, modules);
    forall m | m in SplitWhitespace(strModules)
      ensures Placed(toggled, Upper(m), ModuleRole(roleByName, db.moduleRoles, m))
    {
      assert Upper(m) in modules;
      var k :| 0 <= k < |modules| && modules[k] == Upper(m);
      UpperIdempotent(m);
    }
    outcome := Some(toggled);
    var embed := CreateEmbedModuleRoles(toggled.added, toggled.removed, toggled.errors);
    overview := Some(embed);
  }

  // ------------------------------------------------- the overview embed

  /** The parts of the overview a member sees: title, description and the two field values. */
  datatype ModuleEmbed = ModuleEmbed(title: string, description: string, addedValue: string, removedValue: string)

  const Heading := " Modul-Rollen \U{DC}berblick"
  const SuccessIcon := ":white_check_mark: "
  const ProblemIcon := ":x: "
  const SuccessTitle := SuccessIcon + Heading
  const ProblemTitle := ProblemIcon + Heading
  const SuccessDescription := "Deine Modul-Rollen wurden erfolgreich angepasst."
  const ProblemDescription := "Beim Anpassen deiner Modul-Rollen, gab es leider Probleme.\n__Folgende Module existieren nicht:__ "
  const NoModules := "- Keine"

  /** One "- NAME" line per module. */
  function ModuleLines(names: seq<string>): (r: seq<string>)
    ensures |r| == |names|
    ensures forall k :: 0 <= k < |names| ==> r[k] == "- " + names[k]
  {
    seq(|names|, k requires 0 <= k < |names| => "- " + names[k])
  }

  /** A field shows "- Keine" for no modules, otherwise each line ended by a newline. */
  function FieldValue(names: seq<string>): string {
    if names == [] then NoModules else Terminated(ModuleLines(names), "\n")
  }

  /** The overview `_create_embed_module_roles` builds. */
  function ModuleEmbedOf(added: seq<string>, removed: seq<string>, errors: seq<string>): (e: ModuleEmbed)
    ensures StartsWith(e.title, ":x: ") <==> errors != []
    ensures errors == [] ==> e.description == SuccessDescription
    ensures errors != [] ==> e.description == ProblemDescription + Join(", ", errors)
  {
    assert SuccessTitle[1] == 'w';
    if errors == [] then ModuleEmbed(SuccessTitle, SuccessDescription, FieldValue(added), FieldValue(removed))
    else ModuleEmbed(ProblemTitle, ProblemDescription + Join(", ", errors), FieldValue(added), FieldValue(removed))
  }

  /** A field lists its modules one per line: splitting it at the newlines gives the lines and a final empty piece. */
  lemma FieldValueLines(names: seq<string>)
    requires names != []
    requires forall k :: 0 <= k < |names| ==> '\n' !in names[k]
    ensures Split(FieldValue(names), "\n") == ModuleLines(names) + [""]
  {
    var lines := ModuleLines(names);
    forall k | 0 <= k < |lines| ensures "\n"[0] !in lines[k] {
      assert lines[k] == "- " + names[k];
    }
    SplitTerminated(lines, "\n");
  }

  /** An empty field shows the placeholder. */
  lemma EmptyFieldShowsNone(added: seq<string>, removed: seq<string>, errors: seq<string>)
    ensures added == [] ==> ModuleEmbedOf(added, removed, errors).addedValue == "- Keine"
    ensures removed == [] ==> ModuleEmbedOf(added, removed, errors).removedValue == "- Keine"
    ensures added != [] ==> ModuleEmbedOf(added, removed, errors).addedValue != "- Keine"
  {
    if added != [] {
      var lines := ModuleLines(added);
      var v := Terminated(lines, "\n");
      var front := lines[..|lines| - 1];
      assert v == Terminated(front, "\n") + lines[|lines| - 1] + "\n";
      assert v[|v| - 1] == '\n';
    }
  }

  /** The field string one module at a time, as the loops of `_create_embed_module_roles` build it. */
  method BuildField(names: seq<string>) returns (value: string)
    ensures value == FieldValue(names)
  {
    value := NoModules;
    if names != [] {
      value := "";
      for k := 0 to |names|
        invariant value == Terminated(ModuleLines(names[..k]), "\n")
      {
        assert ModuleLines(names[..k + 1]) == ModuleLines(names[..k]) + ["- " + names[k]];
        TerminatedAppend(ModuleLines(names[..k]), "- " + names[k], "\n");
        value := value + "- " + names[k] + "\n";
      }
      assert names[..|names|] == names;
    }
  }

  /** `_create_embed_module_roles` */
  method CreateEmbedModuleRoles(added: seq<string>, removed: seq<string>, errors: seq<string>) returns (e: ModuleEmbed)
    ensures e == ModuleEmbedOf(added, removed, errors)
  {
    var title := EmbedTitle(errors);
    var description := if errors == [] then SuccessDescription else ProblemDescription + Join(", ", errors);
    var addedValue := BuildField(added);
    var removedValue := BuildField(removed);
    e := ModuleEmbed(title, description, addedValue, removedValue);
  }

  /** The title: the icon, then the heading. */
  method EmbedTitle(errors: seq<string>) returns (title: string)
    ensures title == ModuleEmbedOf([], [], errors).title
  {
    var icon := if errors != [] then ProblemIcon else SuccessIcon;
    title := icon + Heading;
  }

  // ------------------------------------------------------- reaction roles

  /** What the owner is told by the `reactionrole` subcommands. */
  datatype ReactionRoleReply = OutsideRoleChannel | EmojiInUse | EmojiUnknown | NoReactionRoles | NoReactions | Done

  /**
   * `reactionrole add`: only for messages of the role channel, and only with
   * an emoji not yet on the message; then the row is stored and the emoji
   * is added to the message's reactions.
   */
  method AddReactionRoleCommand(db: DatabaseConnector, roleChannelId: int, messageChannelId: int, messageId: int,
                                reactions: seq<string>, emoji: string, roleId: int)
    returns (reply: ReactionRoleReply, reactionsAfter: seq<string>)
    requires db.Valid()
    modifies db`reactionRoles
    ensures db.Valid()
    ensures reply == OutsideRoleChannel <==> messageChannelId != roleChannelId
    ensures reply == EmojiInUse <==> messageChannelId == roleChannelId && emoji in reactions
    ensures reply == Done <==> messageChannelId == roleChannelId && emoji !in reactions
    ensures reply == Done ==>
      db.reactionRoles == old(db.reactionRoles) + [ReactionRole(messageId, emoji, roleId)] && reactionsAfter == reactions + [emoji]
    ensures reply != Done ==> db.reactionRoles == old(db.reactionRoles) && reactionsAfter == reactions
  {
    if messageChannelId != roleChannelId {
      return OutsideRoleChannel, reactions;
    }
    if emoji in reactions {
      return EmojiInUse, reactions;
    }
    db.AddReactionRole(messageId, emoji, roleId);
    reactionsAfter := reactions + [emoji];
    reply := Done;
  }

  /**
   * `reactionrole remove`: only for messages of the role channel, and only
   * for an emoji on the message; then its row and its reactions go, and the
   * message stops being a uniqueness group when that was its only reaction.
   */
  method RemoveReactionRoleCommand(db: DatabaseConnector, roleChannelId: int, messageChannelId: int, messageId: int,
                                   reactions: seq<string>, emoji: string)
    returns (reply: ReactionRoleReply, reactionsAfter: seq<string>)
    requires db.Valid()
    modifies db`reactionRoles, db`uniquenessGroups
    ensures db.Valid()
    ensures reply == OutsideRoleChannel <==> messageChannelId != roleChannelId
    ensures reply == EmojiUnknown <==> messageChannelId == roleChannelId && emoji !in reactions
    ensures reply == Done <==> messageChannelId == roleChannelId && emoji in reactions
    ensures reply == Done ==>
      db.reactionRoles == Where(old(db.reactionRoles), (x: ReactionRole) => x.messageId != messageId || x.emoji != emoji) &&
      db.GetReactionRole(messageId, emoji) == None &&
      reactionsAfter == Where(reactions, (x: string) => x != emoji) &&
      db.uniquenessGroups == (if |reactions| == 1 then old(db.uniquenessGroups) - {messageId} else old(db.uniquenessGroups))
    ensures reply != Done ==>
      db.reactionRoles == old(db.reactionRoles) && db.uniquenessGroups == old(db.uniquenessGroups) && reactionsAfter == reactions
  {
    if messageChannelId != roleChannelId {
      return OutsideRoleChannel, reactions;
    }
    if emoji !in reactions {
      return EmojiUnknown, reactions;
    }
    db.RemoveReactionRole(messageId, emoji);
    reactionsAfter := Where(reactions, (x: string) => x != emoji);
    if |reactions| == 1 {
      db.RemoveReactionRoleUniquenessGroup(messageId);
    }
    reply := Done;
  }

  /**
   * `reactionrole clear`: for a message of the role channel, all its rows and
   * its uniqueness group go; its reactions are cleared only when it had rows.
   */
  method ClearReactionRolesCommand(db: DatabaseConnector, roleChannelId: int, messageChannelId: int, messageId: int,
                                   reactions: seq<string>)
    returns (reply: ReactionRoleReply, reactionsAfter: seq<string>)
    requires db.Valid()
    modifies db`reactionRoles, db`uniquenessGroups
    ensures db.Valid()
    ensures reply == OutsideRoleChannel <==> messageChannelId != roleChannelId
    ensures reply == OutsideRoleChannel ==>
      db.reactionRoles == old(db.reactionRoles) && db.uniquenessGroups == old(db.uniquenessGroups)
    ensures reply != OutsideRoleChannel ==>
      db.reactionRoles == Where(old(db.reactionRoles), (x: ReactionRole) => x.messageId != messageId) &&
      db.uniquenessGroups == old(db.uniquenessGroups) - {messageId}
    ensures reply == NoReactionRoles <==>
      messageChannelId == roleChannelId && forall x :: x in old(db.reactionRoles) ==> x.messageId != messageId
    ensures reply == Done ==> reactionsAfter == []
    ensures reply != Done ==> reactionsAfter == reactions
  {
    if messageChannelId != roleChannelId {
      return OutsideRoleChannel, reactions;
    }
    var hadReactionRoles := db.ClearReactionRoles(messageId);
    db.RemoveReactionRoleUniquenessGroup(messageId);
    if !hadReactionRoles {
      return NoReactionRoles, reactions;
    }
    reply, reactionsAfter := Done, [];
  }

  /**
   * `reactionrole unique`: a message without reactions is refused; otherwise
   * its uniqueness flag flips and no other message's flag changes. The role
   * channel is not checked.
   */
  method ToggleReactionRolesExclusiveness(db: DatabaseConnector, messageId: int, reactions: seq<string>)
    returns (reply: ReactionRoleReply)
    requires db.Valid()
    modifies db`uniquenessGroups
    ensures db.Valid()
    ensures reply == NoReactions <==> reactions == []
    ensures reply != NoReactions ==> reply == Done
    ensures reactions == [] ==> db.uniquenessGroups == old(db.uniquenessGroups)
    ensures reactions != [] ==> db.uniquenessGroups == Toggle(old(db.uniquenessGroups), messageId)
  {
    if |reactions| == 0 {
      return NoReactions;
    }
    if db.IsReactionRoleUniquenessGroup(messageId) {
      db.RemoveReactionRoleUniquenessGroup(messageId);
    } else {
      db.AddReactionRoleUniquenessGroup(messageId);
    }
    reply := Done;
  }
}
