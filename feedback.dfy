/**
 * `bot/feedback/feedback.py`: suggestions. A new suggestion is posted as an
 * embed titled with its row id; moderators set its status, which rewrites the
 * embed's title and reason field; while it is undecided, members' votes
 * recolour it once one side has enough votes and a clear margin.
 */
module Feedback {
  import opened Wrappers
  import opened Text
  import opened Constants
  import opened SuggestionStatusEnum
  import opened Queries
  import opened Persistence

  datatype BadArgument = BadArgument

  /** A field of an embed. */
  datatype Field = Field(name: string, value: string)

  /** The parts of a suggestion embed that the cog rewrites. */
  datatype SuggestionEmbed = SuggestionEmbed(title: string, fields: seq<Field>)

  // -------------------------------------------------------------- titles

  /** `_build_suggestion_embed`: the title names the suggestion's row id. */
  function SuggestionTitle(suggestionId: nat): (t: string)
    ensures StartsWith(t, "Vorschlag #") && t[|"Vorschlag #"|..] == NatToString(suggestionId)
    ensures '-' !in t
  {
    var digits := NatToString(suggestionId);
    assert forall j :: 0 <= j < |digits| ==> IsDigit(digits[j]);
    "Vorschlag #" + digits
  }

  /** Different suggestions get different titles. */
  lemma SuggestionTitleInjective(a: nat, b: nat)
    requires SuggestionTitle(a) == SuggestionTitle(b)
    ensures a == b
  {
    assert NatToString(a) == SuggestionTitle(a)[|"Vorschlag #"|..];
    assert DigitsValue(NatToString(a)) == a;
  }

  /** The title suffix of each decided status. */
  function StatusSuffix(status: SuggestionStatus): (s: string)
    ensures StartsWith(s, " -")
  {
    match status
    case Approved => " - Genehmigt :white_check_mark:"
    case Denied => " - Abgelehnt :no_entry_sign:"
    case Considered => " - M\U{F6}glicherweise :thinking:"
    case _ => " - Umgesetzt :tada:"
  }

  /** The title without any status suffix: the text before the first " -" (`split(" -")[0]`). */
  function BaseTitle(title: string): (b: string)
    ensures b <= title
    ensures Find(b, " -") == -1
  {
    var i := Find(title, " -");
    if i < 0 then title
    else
      FindInPrefix(title, " -");
      title[..i]
  }

  /** `split(" -")[0]` is the base title. */
  lemma BaseTitleIsFirstPart(title: string)
    ensures BaseTitle(title) == Split(title, " -")[0]
  {
  }

  /** The title `_refresh_suggestion_embed` gives: the base title and the suffix of the new status. */
  function RefreshTitle(title: string, status: SuggestionStatus): (t: string)
    ensures t == BaseTitle(title) + StatusSuffix(status)
  {
    Split(title, " -")[0] + StatusSuffix(status)
  }

  /** The first " -" of a base title followed by a suffix is where the suffix begins. */
  lemma BaseOfSuffixed(base: string, suffix: string)
    requires Find(base, " -") == -1 && StartsWith(suffix, " -")
    ensures BaseTitle(base + suffix) == base
  {
    var s := base + suffix;
    assert s[|base|..|base| + 2] == " -";
    forall j | 0 <= j < |base| ensures !OccursAt(s, " -", j) {
      if j + 2 <= |base| {
        assert s[j..j + 2] == base[j..j + 2];
        FindFirst(base, " -");
        assert !OccursAt(base, " -", j);
      } else {
        assert suffix[..2] == " -";
        assert s[j + 1] == suffix[0] == ' ';
        assert s[j..j + 2][1] == s[j + 1];
      }
    }
    assert OccursAt(s, " -", |base|);
    FindFirst(s, " -");
  }

  /** Status changes never stack: the title shows only the latest status. */
  lemma RefreshTitleNoStacking(title: string, first: SuggestionStatus, second: SuggestionStatus)
    ensures RefreshTitle(RefreshTitle(title, first), second) == RefreshTitle(title, second)
  {
    BaseOfSuffixed(BaseTitle(title), StatusSuffix(first));
  }

  /** A posted suggestion keeps its number: the refreshed title is the original title and one suffix. */
  lemma RefreshKeepsNumber(suggestionId: nat, status: SuggestionStatus)
    ensures RefreshTitle(SuggestionTitle(suggestionId), status) == SuggestionTitle(suggestionId) + StatusSuffix(status)
  {
    var t := SuggestionTitle(suggestionId);
    FindAbsentSecond(t, " -");
  }

  // ------------------------------------------------------ refreshing embed

  /**
   * `_refresh_suggestion_embed`: the fields become the one reason field when a
   * reason is given and none otherwise; the title gets the status suffix.
   */
  function RefreshSuggestionEmbed(embed: SuggestionEmbed, author: string, reason: Option<string>, status: SuggestionStatus)
    : (r: SuggestionEmbed)
    ensures Given(reason) ==> r.fields == [Field("Begr\U{FC}ndung von " + author + ":", reason.value)]
    ensures !Given(reason) ==> r.fields == []
    ensures r.title == BaseTitle(embed.title) + StatusSuffix(status)
  {
    var fields := if Given(reason) then [Field("Begr\U{FC}ndung von " + author + ":", reason.value)] else [];
    SuggestionEmbed(RefreshTitle(embed.title, status), fields)
  }

  // ---------------------------------------------------------------- commands

  /**
   * `suggestion`: the row is added, the embed is titled with the new id, and
   * the row gets the id of the posted message.
   */
  method ManageSuggestions(db: DatabaseConnector, authorId: int, createdAt: int, postedMessageId: int)
    returns (embed: SuggestionEmbed, suggestionId: nat)
    requires db.Valid()
    modifies db`suggestions, db`nextSuggestionId
    ensures db.Valid()
    ensures embed == SuggestionEmbed(SuggestionTitle(suggestionId), [])
    ensures forall s :: s in old(db.suggestions) ==> s.id != suggestionId
    ensures db.suggestions == old(db.suggestions) + [Suggestion(suggestionId, authorId, createdAt, Some(postedMessageId), Undecided)]
    ensures db.GetSuggestion(suggestionId) == Some(Suggestion(suggestionId, authorId, createdAt, Some(postedMessageId), Undecided))
  {
    ghost var initial := db.suggestions;
    suggestionId := db.AddSuggestion(authorId, createdAt);
    embed := SuggestionEmbed("Vorschlag #" + NatToString(suggestionId), []);
    ghost var before := db.suggestions;
    db.SetSuggestionMessageId(suggestionId, postedMessageId);
    ghost var n := |initial|;
    assert before[n] == Suggestion(suggestionId, authorId, createdAt, None, Undecided);
    assert db.suggestions[n] == Suggestion(suggestionId, authorId, createdAt, Some(postedMessageId), Undecided);
    forall i | 0 <= i < |db.suggestions| && i != n ensures db.suggestions[i].id != suggestionId {
      assert before[i] == initial[i];
      assert initial[i] in initial;
    }
    SoleRowWithId(db.suggestions, db.GetSuggestion(suggestionId).value, n);
    assert db.suggestions == initial + [Suggestion(suggestionId, authorId, createdAt, Some(postedMessageId), Undecided)];
  }

  /** A row carrying an id that only the row at `k` has is that row. */
  lemma SoleRowWithId(rows: seq<Suggestion>, r: Suggestion, k: nat)
    requires k < |rows| && r in rows && r.id == rows[k].id
    requires forall i :: 0 <= i < |rows| && i != k ==> rows[i].id != rows[k].id
    ensures r == rows[k]
  {
    var j :| 0 <= j < |rows| && rows[j] == r;
  }

  /**
   * `_change_suggestion_status`: an id without a row is a BadArgument and
   * changes nothing; otherwise the row gets the status, whatever it had
   * before, and the embed is refreshed with that status.
   */
  method ChangeSuggestionStatus(db: DatabaseConnector, suggestionId: nat, status: SuggestionStatus,
                                author: string, reason: Option<string>, embed: SuggestionEmbed)
    returns (r: Result<SuggestionEmbed, BadArgument>)
    requires db.Valid()
    modifies db`suggestions
    ensures db.Valid()
    ensures r.Err? <==> forall s :: s in old(db.suggestions) ==> s.id != suggestionId
    ensures r.Err? ==> db.suggestions == old(db.suggestions)
    ensures |db.suggestions| == |old(db.suggestions)|
    ensures forall i :: 0 <= i < |db.suggestions| ==>
      db.suggestions[i] == if old(db.suggestions[i].id) == suggestionId then old(db.suggestions[i]).(status := status)
                           else old(db.suggestions[i])
    ensures r.Ok? ==> r.value == RefreshSuggestionEmbed(embed, author, reason, status)
  {
    ghost var before := db.suggestions;
    var idExists := db.SetSuggestionStatus(suggestionId, status);
    if !idExists {
      assert db.suggestions == before;
      return Err(BadArgument);
    }
    var suggestionData := db.GetSuggestion(suggestionId).value;
    var k :| 0 <= k < |db.suggestions| && db.suggestions[k] == suggestionData;
    assert suggestionData.status == status;
    r := Ok(RefreshSuggestionEmbed(embed, author, reason, suggestionData.status));
  }

  // ------------------------------------------------------------------ votes

  /** What a vote does to the suggestion's colour. */
  datatype VoteOutcome = Unchanged | MembersLike | MembersDislike

  function Abs(x: int): nat {
    if x < 0 then -x else x
  }

  /**
   * `actual_difference > required_difference` in integers: the gap is more than
   * half of all votes.
   */
  predicate ClearMargin(up: nat, down: nat) {
    2 * Abs(up - down) > up + down
  }

  /** The integer test is the real-number one: the gap exceeds half the total. */
  lemma ClearMarginIsHalfTotal(up: nat, down: nat)
    ensures ClearMargin(up, down) <==> Abs(up - down) as real > (up + down) as real / 2.0
  {
  }

  /**
   * The recolouring rule of `suggestion_reaction_add`: members like it when up
   * votes pass the limit, lead and have the margin; otherwise they dislike it
   * when down votes pass the limit with the margin.
   */
  function VoteRecolor(up: nat, down: nat, voteLimit: int): (r: VoteOutcome)
    ensures r == MembersLike <==> up > voteLimit && up > down && ClearMargin(up, down)
    ensures r == MembersDislike ==> down > voteLimit && ClearMargin(up, down)
  {
    if up > voteLimit && up > down && ClearMargin(up, down) then MembersLike
    else if down > voteLimit && ClearMargin(up, down) then MembersDislike
    else Unchanged
  }

  /** Members dislike a suggestion only when it has more down votes than up votes. */
  lemma DislikeNeedsMoreDown(up: nat, down: nat, voteLimit: int)
    ensures VoteRecolor(up, down, voteLimit) == MembersDislike ==> down > up
  {
  }

  /** The rule treats the two sides alike: swapping the votes swaps like and dislike. */
  lemma VoteRecolorSwapped(up: nat, down: nat, voteLimit: int)
    ensures VoteRecolor(up, down, voteLimit) == MembersLike <==> VoteRecolor(down, up, voteLimit) == MembersDislike
  {
    DislikeNeedsMoreDown(down, up, voteLimit);
    assert Abs(up - down) == Abs(down - up);
  }

  /**
   * `suggestion_reaction_add`: votes count only in the suggestion channel, from
   * members who are not bots, on an undecided suggestion, for the two vote
   * emojis; `up` and `down` are the counts of the message's first two reactions.
   */
  function SuggestionReactionAdd(db: DatabaseConnector, channelId: int, suggestionChannelId: int, memberIsBot: bool,
                                 messageId: int, emoji: string, up: nat, down: nat, voteLimit: int): (r: VoteOutcome)
    reads db
    ensures r != Unchanged ==>
      channelId == suggestionChannelId && !memberIsBot && db.GetSuggestionStatus(messageId) == Some(Undecided) &&
      (emoji == EmojiUpvote || emoji == EmojiDownvote)
    ensures (channelId == suggestionChannelId && !memberIsBot && db.GetSuggestionStatus(messageId) == Some(Undecided) &&
      (emoji == EmojiUpvote || emoji == EmojiDownvote)) ==> r == VoteRecolor(up, down, voteLimit)
  {
    if channelId == suggestionChannelId && !memberIsBot && db.GetSuggestionStatus(messageId) == Some(Undecided) then
      if emoji in [EmojiUpvote, EmojiDownvote] then VoteRecolor(up, down, voteLimit) else Unchanged
    else Unchanged
  }
}
