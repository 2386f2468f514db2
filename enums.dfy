/** `bot/moderation/modmail_status.py`: the states of a modmail ticket and their stored ids. */
module ModmailStatusEnum {
  import opened Wrappers

  datatype ModmailStatus = Open | InProgress | Closed

  /** The enum's `value`, as stored in `Modmail.StatusID`. */
  function Value(s: ModmailStatus): (v: int)
    ensures 1 <= v <= 3
  {
    match s
    case Open => 1
    case InProgress => 2
    case Closed => 3
  }

  /** `ModmailStatus(v)`: `None` stands for the ValueError of an unknown value. */
  function FromValue(v: int): (s: Option<ModmailStatus>)
    ensures s.Some? <==> 1 <= v <= 3
    ensures s.Some? ==> Value(s.value) == v
  {
    if v == 1 then Some(Open) else if v == 2 then Some(InProgress) else if v == 3 then Some(Closed) else None
  }

  lemma ValueRoundTrip(s: ModmailStatus)
    ensures FromValue(Value(s)) == Some(s)
  {
  }
}

/** `bot/feedback/suggestion_status.py`: the states of a suggestion and their stored ids. */
module SuggestionStatusEnum {
  import opened Wrappers

  datatype SuggestionStatus = Undecided | Approved | Denied | Considered | Implemented

  function Value(s: SuggestionStatus): (v: int)
    ensures 0 <= v <= 4
  {
    match s
    case Undecided => 0
    case Approved => 1
    case Denied => 2
    case Considered => 3
    case Implemented => 4
  }

  /** `SuggestionStatus(v)`: `None` stands for the ValueError of an unknown value. */
  function FromValue(v: int): (s: Option<SuggestionStatus>)
    ensures s.Some? <==> 0 <= v <= 4
    ensures s.Some? ==> Value(s.value) == v
  {
    if v == 0 then Some(Undecided) else if v == 1 then Some(Approved) else if v == 2 then Some(Denied)
    else if v == 3 then Some(Considered) else if v == 4 then Some(Implemented) else None
  }

  lemma ValueRoundTrip(s: SuggestionStatus)
    ensures FromValue(Value(s)) == Some(s)
  {
  }
}

/** `bot/utility/selection_emoji.py`: the keycap emojis 1 to 10 offered in selection dialogs. */
module SelectionEmojis {
  import opened Wrappers

  /** The keycap emoji for `d` in 1..9: the digit, a variation selector and the combining keycap. */
  function Keycap(d: nat): (e: string)
    requires 1 <= d <= 9
    ensures |e| == 3 && e[0] == ('0' as int + d) as char
  {
    [('0' as int + d) as char, '\U{FE0F}', '\U{20E3}']
  }

  /** `SelectionEmoji.to_list()`: ONE to NINE, then TEN. */
  function ToList(): (r: seq<string>)
    ensures |r| == 10
    ensures forall i :: 0 <= i < 9 ==> r[i] == Keycap(i + 1)
    ensures r[9] == "\U{1F51F}"
  {
    seq(9, i requires 0 <= i < 9 => Keycap(i + 1)) + ["\U{1F51F}"]
  }

  /** `list.index(emoji)` on the list; `None` stands for the ValueError of an emoji not in the list. */
  function IndexOf(emoji: string): (r: Option<nat>)
    ensures r.Some? ==> r.value < 10 && ToList()[r.value] == emoji
    ensures r.None? ==> emoji !in ToList()
  {
    var l := ToList();
    if emoji == l[9] then Some(9)
    else if |emoji| == 3 && emoji[1..] == "\U{FE0F}\U{20E3}" && '1' <= emoji[0] <= '9' then
      var i := emoji[0] as int - '1' as int;
      assert l[i] == Keycap(i + 1);
      assert emoji == l[i];
      Some(i)
    else
      assert forall i :: 0 <= i < 9 ==> l[i] != emoji;
      None
  }

  /** Each emoji is found at its own position, so the ten emojis are distinct. */
  lemma IndexOfToList(i: nat)
    requires i < 10
    ensures IndexOf(ToList()[i]) == Some(i)
  {
  }
}
