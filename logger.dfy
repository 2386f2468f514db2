/**
 * `bot/logger/logger.py`: the decision whether a command invocation is logged.
 * A text command is logged only by the deepest subcommand that the message calls,
 * so that a group and its subcommand do not both log one message.
 */
module Logger {
  import opened Wrappers
  import opened Text
  import opened Constants

  /**
   * A command as the logger sees it: a plain command, or a group with the text
   * forms (`str(sub_command)`, the qualified names) of its subcommands.
   */
  datatype Command = Plain(name: string) | Group(name: string, subcommands: seq<string>)

  /** Some lowercased subcommand name is a prefix of `msg` (the `any(...)` generator). */
  function AnySubcommandPrefix(msg: string, subs: seq<string>): (r: bool)
    ensures r <==> exists k :: 0 <= k < |subs| && StartsWith(msg, Lower(subs[k]))
  {
    if subs == [] then false
    else StartsWith(msg, Lower(subs[0])) || AnySubcommandPrefix(msg, subs[1..])
  }

  /** The message with the bot prefix cut off and lowercased (`msg[len(BOT_PREFIX)::].lower()`). */
  function Normalized(msg: string): (m: string)
    ensures |m| == |Drop(msg, |BotPrefix|)|
  {
    Lower(Drop(msg, |BotPrefix|))
  }

  /** `is_deepest_subcommand(command, msg)` */
  function IsDeepestSubcommand(cmd: Command, msg: string): (r: bool)
    ensures cmd.Plain? ==> r
    ensures cmd.Group? ==>
      (r <==> forall k :: 0 <= k < |cmd.subcommands| ==> !StartsWith(Normalized(msg), Lower(cmd.subcommands[k])))
    ensures cmd.Group? && cmd.subcommands == [] ==> r
  {
    match cmd
    case Plain(_) => true
    case Group(_, subs) => !AnySubcommandPrefix(Normalized(msg), subs)
  }

  /** Whether the message is lowercase or not does not matter. */
  lemma DeepestIgnoresCase(cmd: Command, a: string, b: string)
    requires Lower(a) == Lower(b)
    ensures IsDeepestSubcommand(cmd, a) == IsDeepestSubcommand(cmd, b)
  {
    assert |a| == |b|;
    if |a| >= 1 {
      LowerSlice(a, 1, |a|);
      LowerSlice(b, 1, |b|);
    }
    assert Normalized(a) == Normalized(b);
  }

  datatype Channel = DirectMessages | Named(name: string)

  /** The context argument: an application (slash) command, or a text command with its parsing state. */
  datatype Invocation =
    | AppCommand(cmd: Command, user: string, channel: Channel)
    | TextCommand(cmd: Command, author: string, channel: Channel, valid: bool, content: string)

  /** What the `command_log` wrapper does: maybe a log line, then always the wrapped call. */
  datatype WrapperEffect = WrapperEffect(logLine: Option<string>, invoked: bool)

  function ChannelName(ch: Channel): string {
    match ch
    case DirectMessages => "Direct Messages"
    case Named(n) => n
  }

  function LogLine(cmd: Command, user: string, ch: Channel): string {
    "Command \"" + cmd.name + "\" called by " + user + " in channel [#" + ChannelName(ch) + "]"
  }

  /** The `command_log` wrapper. */
  function CommandLog(inv: Invocation): (r: WrapperEffect)
    ensures r.invoked
    ensures inv.AppCommand? ==> r.logLine == Some(LogLine(inv.cmd, inv.user, inv.channel))
    ensures inv.TextCommand? ==>
      (r.logLine.Some? <==> inv.valid && IsDeepestSubcommand(inv.cmd, inv.content))
    ensures inv.TextCommand? && r.logLine.Some? ==> r.logLine.value == LogLine(inv.cmd, inv.author, inv.channel)
  {
    var log :=
      if inv.AppCommand? then Some(LogLine(inv.cmd, inv.user, inv.channel))
      else if inv.valid && IsDeepestSubcommand(inv.cmd, inv.content) then Some(LogLine(inv.cmd, inv.author, inv.channel))
      else None;
    WrapperEffect(log, true)
  }

  /**
   * A text message that calls a subcommand of a group is not logged by the group:
   * if "!<sub> ..." starts with a subcommand's name, in any letter case, the group's
   * wrapper stays silent.
   */
  lemma GroupDefersToSubcommand(name: string, subs: seq<string>, k: nat, author: string, ch: Channel, rest: string)
    requires k < |subs|
    ensures CommandLog(TextCommand(Group(name, subs), author, ch, true, BotPrefix + subs[k] + rest)).logLine == None
  {
    var msg := BotPrefix + subs[k] + rest;
    assert Drop(msg, 1) == subs[k] + rest;
    LowerAppend(subs[k], rest);
    assert StartsWith(Normalized(msg), Lower(subs[k]));
  }
}
