/**
 * `bot/university/university.py`: the group exchange command, the course name
 * taken from a course channel, and the fields of the staff embed built from the
 * u:find person record (the XML elements become plain datatypes).
 */
module University {
  import opened Wrappers
  import opened Text
  import opened Constants
  import opened Queries
  import opened Persistence

  // ------------------------------------------------------------ group exchange

  /** The exceptions the `exchange` command raises for its error handler. */
  datatype ExchangeError = SyntaxError | ValueError | IntegrityError

  /** `int(part)` for every part, or `None` when one of them is not an integer. */
  function ParseInts(parts: seq<string>): (r: Option<seq<int>>)
    ensures r.None? <==> exists k :: 0 <= k < |parts| && ParseInt(parts[k]).None?
    ensures r.Some? ==> |r.value| == |parts| && forall k :: 0 <= k < |parts| ==> ParseInt(parts[k]) == Some(r.value[k])
  {
    if parts == [] then Some([])
    else
      var head := ParseInt(parts[0]);
      var rest := ParseInts(parts[1..]);
      if head.None? then None
      else if rest.None? then
        assert exists k :: 0 <= k < |parts| && ParseInt(parts[k]).None? by {
          var k :| 0 <= k < |parts[1..]| && ParseInt(parts[1..][k]).None?;
          assert ParseInt(parts[k + 1]).None?;
        }
        None
      else
        assert forall k :: 0 <= k < |parts| ==> ParseInt(parts[k]) == Some(([head.value] + rest.value)[k]) by {
          forall k | 0 <= k < |parts| ensures ParseInt(parts[k]) == Some(([head.value] + rest.value)[k]) {
            if k > 0 {
              assert parts[k] == parts[1..][k - 1];
            }
          }
        }
        Some([head.value] + rest.value)
  }

  /** `list(map(int, requested_groups_str.split(',')))`; `None` stands for the ValueError of `int`. */
  function ParseGroups(s: string): (r: Option<seq<int>>)
    ensures r.Some? ==> |r.value| == |Split(s, ",")|
    ensures r == ParseInts(Split(s, ","))
  {
    ParseInts(Split(s, ","))
  }

  /** The groups written as `str` and joined with commas. */
  function GroupsText(groups: seq<int>): string {
    Join(",", seq(|groups|, k requires 0 <= k < |groups| => IntToString(groups[k])))
  }

  lemma {:induction false} ParseIntsOfStrings(groups: seq<int>)
    ensures ParseInts(seq(|groups|, k requires 0 <= k < |groups| => IntToString(groups[k]))) == Some(groups)
  {
    var parts := seq(|groups|, k requires 0 <= k < |groups| => IntToString(groups[k]));
    forall k | 0 <= k < |groups| ensures ParseInt(parts[k]) == Some(groups[k]) {
      ParseIntToString(groups[k]);
    }
    var r := ParseInts(parts);
    assert r.Some?;
    assert r.value == groups;
  }

  /** Any non-empty list of groups written with commas parses back to itself. */
  lemma GroupsRoundTrip(groups: seq<int>)
    requires groups != []
    ensures ParseGroups(GroupsText(groups)) == Some(groups)
  {
    var parts := seq(|groups|, k requires 0 <= k < |groups| => IntToString(groups[k]));
    forall k | 0 <= k < |parts| ensures ","[0] !in parts[k] {
      var d := NatToString(if groups[k] < 0 then -groups[k] else groups[k]);
      assert parts[k] == d || parts[k] == "-" + d;
      assert forall i :: 0 <= i < |d| ==> IsDigit(d[i]);
    }
    SplitJoin(parts, ",");
    ParseIntsOfStrings(groups);
  }

  /** An empty list and a trailing comma leave an empty part, which `int` rejects. */
  lemma EmptyPartRejected(s: string)
    ensures ParseGroups("") == None
    ensures ParseGroups(s + ",") == None
  {
    assert ParseInt("").None?;
    var t := s + ",";
    var parts := Split(t, ",");
    SplitChar(t, ',');
    JoinLastChar(",", parts);
    var last := parts[|parts| - 1];
    assert Join(",", parts) == t;
    assert t[|t| - 1] == ',';
    assert last == "";
    assert ParseInt(parts[|parts| - 1]).None?;
  }

  /** A joined text ends with the last character of its last part. */
  lemma JoinLastChar(sep: string, parts: seq<string>)
    requires |parts| >= 1
    ensures var last := parts[|parts| - 1]; var j := Join(sep, parts);
      last != [] ==> |j| > 0 && j[|j| - 1] == last[|last| - 1] && j[|j| - 1] in last
  {
    if |parts| > 1 {
      JoinSnoc(sep, parts[..|parts| - 1], parts[|parts| - 1]);
      assert parts[..|parts| - 1] + [parts[|parts| - 1]] == parts;
    }
  }

  /**
   * The checks of `exchange` before anything is stored, in the source's order:
   * the channel must be a course channel, the requested groups integers
   * separated by commas, and the offered group not among them.
   */
  function ValidateExchange(channelName: string, offered: int, requestedGroups: string): (r: Result<seq<int>, ExchangeError>)
    ensures r == Err(SyntaxError) <==> !Contains(channelName, EmojiChannelNameSeparator) || ParseGroups(requestedGroups).None?
    ensures r == Err(ValueError) <==>
      Contains(channelName, EmojiChannelNameSeparator) && ParseGroups(requestedGroups).Some? &&
      offered in ParseGroups(requestedGroups).value
    ensures r.Ok? ==> ParseGroups(requestedGroups) == Some(r.value) && offered !in r.value && r.value != []
  {
    if !Contains(channelName, EmojiChannelNameSeparator) then Err(SyntaxError)
    else match ParseGroups(requestedGroups)
      case None => Err(SyntaxError)
      case Some(groups) => if offered in groups then Err(ValueError) else Ok(groups)
  }

  /**
   * The partners the new offer notifies: every candidate of the new offer is an
   * offer in the table that is matched with the new one in both directions, so
   * its owner's own query finds the new offer too.
   */
  lemma NotifiedPartnersMatch(offers: seq<GroupOffer>, requests: seq<GroupRequest>, newOffer: GroupOffer,
                              requested: seq<int>, c: Candidate)
    requires UniqueOffers(offers) && newOffer in offers
    requires forall g :: g in requested ==> GroupRequest(newOffer.userId, newOffer.course, g) in requests
    requires c in Candidates(offers, requests, newOffer.userId, newOffer.course, newOffer.groupNr, requested)
    ensures exists b :: (b in offers && b.course == newOffer.course && c == Candidate(b.userId, b.messageId, b.groupNr) &&
      MatchedFor(offers, requests, newOffer, b) && MatchedFor(offers, requests, b, newOffer))
  {
    var u, course := newOffer.userId, newOffer.course;
    CandidateMeaning(offers, requests, u, course, newOffer.groupNr, requested, c);
    var b :| b in offers && b.userId == c.userId && b.messageId == c.messageId && b.groupNr == c.groupNr &&
      b.course == course && c.userId != u && c.groupNr in requested &&
      newOffer.groupNr in RequestedGroups(requests, b.userId, course);
    var own := RequestedGroups(requests, u, course);
    assert GroupRequest(u, course, b.groupNr) in requests;
    assert b.groupNr in own;
    CandidateMeaning(offers, requests, u, course, newOffer.groupNr, own, c);
    assert MatchedFor(offers, requests, b, newOffer);
    CandidateSymmetry(offers, requests, b, newOffer);
  }

  /** The candidates to notify as the connector returns them: `None` or a non-empty set. */
  function Notified(r: Option<set<Candidate>>): set<Candidate> {
    if r.Some? then r.value else {}
  }

  /**
   * `exchange`: after validation the offer and its requests are stored, then
   * the offer gets the id of its posted message, then the candidates are read.
   * A second offer of the user for the course is the IntegrityError of the
   * table and stores nothing. The candidates returned are the ones notified.
   */
  method Exchange(db: DatabaseConnector, authorId: int, channelId: int, channelName: string,
                  offered: int, requestedGroups: string, postedMessageId: int)
    returns (r: Result<Option<set<Candidate>>, ExchangeError>)
    requires db.Valid()
    modifies db`offers, db`requests
    ensures db.Valid()
    ensures r.Err? ==> db.offers == old(db.offers) && db.requests == old(db.requests)
    ensures ValidateExchange(channelName, offered, requestedGroups).Err? ==>
      r == Err(ValidateExchange(channelName, offered, requestedGroups).error)
    ensures ValidateExchange(channelName, offered, requestedGroups).Ok? ==>
      (r == Err(ExchangeError.IntegrityError) <==> old(HasOffer(db.offers, authorId, channelId)))
    ensures r.Err? <==>
      ValidateExchange(channelName, offered, requestedGroups).Err? || old(HasOffer(db.offers, authorId, channelId))
    ensures r.Ok? ==>
      var groups := ValidateExchange(channelName, offered, requestedGroups).value;
      db.offers == SetOfferMessage(old(db.offers) + [GroupOffer(authorId, channelId, offered, None)],
                                   authorId, channelId, postedMessageId) &&
      db.requests == old(db.requests) + RequestRows(authorId, channelId, groups) &&
      GroupOffer(authorId, channelId, offered, Some(postedMessageId)) in db.offers &&
      Notified(r.value) == Candidates(db.offers, db.requests, authorId, channelId, offered, groups)
    ensures r.Ok? ==> forall c :: c in Notified(r.value) ==>
      exists b :: (b in db.offers && b.course == channelId && c == Candidate(b.userId, b.messageId, b.groupNr) &&
        MatchedFor(db.offers, db.requests, GroupOffer(authorId, channelId, offered, Some(postedMessageId)), b) &&
        MatchedFor(db.offers, db.requests, b, GroupOffer(authorId, channelId, offered, Some(postedMessageId))))
  {
    var checked := ValidateExchange(channelName, offered, requestedGroups);
    if checked.Err? {
      return Err(checked.error);
    }
    var groups := checked.value;
    var err := db.AddGroupOfferAndRequests(authorId, channelId, offered, groups);
    if err.Some? {
      return Err(ExchangeError.IntegrityError);
    }
    ghost var stored := db.offers;
    db.UpdateGroupExchangeMessageId(authorId, channelId, postedMessageId);
    var newOffer := GroupOffer(authorId, channelId, offered, Some(postedMessageId));
    assert db.offers[|stored| - 1] == newOffer;
    var candidates := db.GetCandidatesForGroupExchange(authorId, channelId, offered, groups);
    forall g | g in groups ensures GroupRequest(authorId, channelId, g) in db.requests {
      var k :| 0 <= k < |groups| && groups[k] == g;
      var rows := RequestRows(authorId, channelId, groups);
      assert rows[k] in rows;
      assert db.requests == old(db.requests) + rows;
    }
    forall c | c in Notified(candidates)
      ensures exists b :: (b in db.offers && b.course == channelId && c == Candidate(b.userId, b.messageId, b.groupNr) &&
        MatchedFor(db.offers, db.requests, newOffer, b) && MatchedFor(db.offers, db.requests, b, newOffer))
    {
      NotifiedPartnersMatch(db.offers, db.requests, newOffer, groups, c);
    }
    r := Ok(candidates);
  }

  /**
   * `exchange remove`: with an offer whose message id is set (and truthy), the
   * offer and its requests go and the message id is returned for deleting the
   * post; without an offer nothing changes. An offer without a message id is
   * the TypeError of `get_group_exchange_message`.
   */
  method RemoveExchange(db: DatabaseConnector, authorId: int, channelId: int) returns (r: Result<Option<int>, DbError>)
    requires db.Valid()
    modifies db`offers, db`requests
    ensures db.Valid()
    ensures r == Ok(None) || r.Err? ==> db.offers == old(db.offers) && db.requests == old(db.requests)
    ensures r.Err? ==> r.error == TypeError
    ensures r.Err? <==> old(db.GetGroupExchangeMessage(authorId, channelId)).Err?
    ensures forall m :: old(db.GetGroupExchangeMessage(authorId, channelId)) == Ok(Some(m)) && m != 0 ==>
      r == Ok(Some(m))
    ensures old(db.GetGroupExchangeMessage(authorId, channelId)) == Ok(Some(0)) ==> r == Ok(None)
    ensures !old(HasOffer(db.offers, authorId, channelId)) ==> r == Ok(None)
    ensures r.Ok? && r.value.Some? ==>
      r.value.value != 0 &&
      old(db.GetGroupExchangeMessage(authorId, channelId)) == Ok(Some(r.value.value)) &&
      db.offers == RemoveOffer(old(db.offers), authorId, channelId) &&
      db.requests == RemoveRequests(old(db.requests), authorId, channelId) &&
      !HasOffer(db.offers, authorId, channelId)
  {
    var messageId := db.GetGroupExchangeMessage(authorId, channelId);
    if messageId.Err? {
      return Err(messageId.error);
    }
    if messageId.value.Some? && messageId.value.value != 0 {
      db.RemoveGroupExchangeOffer(authorId, channelId);
      return Ok(messageId.value);
    }
    return Ok(None);
  }

  // -------------------------------------------------------------- course name

  /** The segment of the channel name after the first separator, if there is a separator. */
  function CourseSegment(channelName: string): (r: Option<string>)
    ensures r.None? <==> !Contains(channelName, EmojiChannelNameSeparator)
  {
    var parts := Split(channelName, EmojiChannelNameSeparator);
    if |parts| < 2 then None else Some(parts[1])
  }

  function CapitalizeAll(words: seq<string>): (r: seq<string>)
    ensures |r| == |words|
    ensures forall k :: 0 <= k < |words| ==> r[k] == Capitalize(words[k])
  {
    seq(|words|, k requires 0 <= k < |words| => Capitalize(words[k]))
  }

  /**
   * `_parse_course_from_channel_name`: `split(separator)[1]` (an IndexError,
   * here `None`, without a separator), dashes to spaces, every space-separated
   * word capitalized, joined again with spaces.
   */
  function ParseCourse(channelName: string): (r: Option<string>)
    ensures r.None? <==> !Contains(channelName, EmojiChannelNameSeparator)
  {
    match CourseSegment(channelName)
    case None => None
    case Some(segment) => Some(Join(" ", CapitalizeAll(Split(Replace(segment, "-", " "), " "))))
  }

  lemma {:induction false} LowerJoinCapitalized(words: seq<string>)
    ensures Lower(Join(" ", CapitalizeAll(words))) == Lower(Join(" ", words))
    decreases |words|
  {
    if |words| == 1 {
      LowerCapitalize(words[0]);
    } else if |words| > 1 {
      var caps := CapitalizeAll(words);
      assert caps[1..] == CapitalizeAll(words[1..]);
      LowerJoinCapitalized(words[1..]);
      LowerCapitalize(words[0]);
      LowerAppend(caps[0] + " ", Join(" ", caps[1..]));
      LowerAppend(caps[0], " ");
      LowerAppend(words[0] + " ", Join(" ", words[1..]));
      LowerAppend(words[0], " ");
    }
  }

  /**
   * The course name holds no dash, its space-separated words are the words of
   * the segment each capitalized, and up to letter case it is the segment with
   * dashes read as spaces.
   */
  lemma ParseCourseMeaning(channelName: string)
    requires Contains(channelName, EmojiChannelNameSeparator)
    ensures '-' !in ParseCourse(channelName).value
    ensures Split(ParseCourse(channelName).value, " ") ==
      CapitalizeAll(Split(Replace(CourseSegment(channelName).value, "-", " "), " "))
    ensures Lower(ParseCourse(channelName).value) == Lower(Replace(CourseSegment(channelName).value, "-", " "))
  {
    var spaced := Replace(CourseSegment(channelName).value, "-", " ");
    var words := Split(spaced, " ");
    var caps := CapitalizeAll(words);
    ReplaceCharGone(CourseSegment(channelName).value, '-', " ");
    SplitChar(spaced, ' ');
    forall k | 0 <= k < |words| ensures '-' !in caps[k] && ' ' !in caps[k] {
      assert words[k] in words;
      forall i | 0 <= i < |words[k]| ensures words[k][i] in spaced {
        JoinMember(" ", words, k, i);
      }
      CapitalizeAvoids(words[k], '-');
      CapitalizeAvoids(words[k], ' ');
    }
    JoinAvoids(" ", caps, '-');
    SplitJoin(caps, " ");
    LowerJoinCapitalized(words);
  }

  /** A character of a part is a character of the joined text. */
  lemma {:induction false} JoinMember(sep: string, parts: seq<string>, k: nat, i: nat)
    requires k < |parts| && i < |parts[k]|
    ensures parts[k][i] in Join(sep, parts)
    decreases |parts|
  {
    if |parts| > 1 {
      if k == 0 {
        assert Join(sep, parts) == parts[0] + sep + Join(sep, parts[1..]);
        assert Join(sep, parts)[i] == parts[0][i];
      } else {
        JoinMember(sep, parts[1..], k - 1, i);
      }
    }
  }

  // -------------------------------------------------------------- staff title

  /** The `title` element: its text and its `post` attribute, each possibly missing. */
  datatype TitleElement = TitleElement(text: Option<string>, post: Option<string>)

  /** `title.text or ""` */
  function TitleText(t: TitleElement): string {
    if t.text.Some? then t.text.value else ""
  }

  /** `title.get("post", default="")` */
  function TitlePost(t: TitleElement): string {
    if t.post.Some? then t.post.value else ""
  }

  /** `_create_staff_embed_title`: no title element gives no title; the post is appended only when non-empty. */
  function StaffTitle(title: Option<TitleElement>, firstname: Option<string>, lastname: Option<string>): (r: Option<string>)
    ensures r.None? <==> title.None?
  {
    if title.None? then None
    else
      var postPart := if TitlePost(title.value) != "" then ", " + TitlePost(title.value) else "";
      Some(TitleText(title.value) + " " + Shown(firstname) + " " + Shown(lastname) + postPart)
  }

  /** The staff title is the name line, then ", <post>" exactly when there is a non-empty post. */
  lemma StaffTitleParts(t: TitleElement, firstname: Option<string>, lastname: Option<string>)
    ensures var name := TitleText(t) + " " + Shown(firstname) + " " + Shown(lastname);
      var r := StaffTitle(Some(t), firstname, lastname).value;
      StartsWith(r, name) &&
      (TitlePost(t) == "" <==> r == name) &&
      (TitlePost(t) != "" ==> r[|name|..] == ", " + TitlePost(t))
  {
  }

  // ------------------------------------------------------------ staff contact

  /** The `contact` element; a missing child element is `None`. */
  datatype ContactElement = ContactElement(email: Option<string>, tel: Option<string>, fax: Option<string>, mobile: Option<string>)

  /** `findtext(tag, default="-")` */
  function OrDash(s: Option<string>): string {
    if s.Some? then s.value else "-"
  }

  const EmailLabel: string := "__Email:__ "
  const TelLabel: string := "__TelNr:__ "
  const MobileLabel: string := "__MobilNr:__ "
  const FaxLabel: string := "__Fax:__ "

  function VCardLink(staffId: string): string {
    "[Download vCard](" + (UrlUfindApi + "/staff/" + staffId + "/card.vcf") + ")"
  }

  /** `_create_staff_embed_contact` */
  function Contact(staffId: string, element: Option<ContactElement>): (r: Option<string>)
    ensures r.None? <==> element.None?
  {
    if element.None? then None
    else
      var e := element.value;
      var head := (EmailLabel + OrDash(e.email)) + "\n" + (TelLabel + OrDash(e.tel)) + "\n";
      var withMobile := if e.mobile.Some? then head + (MobileLabel + e.mobile.value) + "\n" else head;
      Some(withMobile + (FaxLabel + OrDash(e.fax)) + "\n" + VCardLink(staffId))
  }

  /** The lines before the vCard link: the mobile line only when there is a mobile number. */
  function ContactHead(e: ContactElement): seq<string> {
    [EmailLabel + OrDash(e.email), TelLabel + OrDash(e.tel)]
    + (if e.mobile.Some? then [MobileLabel + e.mobile.value] else [])
    + [FaxLabel + OrDash(e.fax)]
  }

  function ContactLines(staffId: string, e: ContactElement): seq<string> {
    ContactHead(e) + [VCardLink(staffId)]
  }

  predicate OneLine(s: Option<string>) {
    s.Some? ==> '\n' !in s.value
  }

  lemma ContactIsTerminatedHead(staffId: string, e: ContactElement)
    ensures Contact(staffId, Some(e)).value == Terminated(ContactHead(e), "\n") + VCardLink(staffId)
  {
    var email, tel, fax := EmailLabel + OrDash(e.email), TelLabel + OrDash(e.tel), FaxLabel + OrDash(e.fax);
    var two: seq<string> := [email, tel];
    assert Terminated([email], "\n") == email + "\n" by {
      TerminatedAppend([], email, "\n");
      assert [] + [email] == [email];
    }
    assert Terminated(two, "\n") == email + "\n" + tel + "\n" by {
      TerminatedAppend([email], tel, "\n");
      assert [email] + [tel] == two;
    }
    var head := two + (if e.mobile.Some? then [MobileLabel + e.mobile.value] else []);
    if e.mobile.Some? {
      TerminatedAppend(two, MobileLabel + e.mobile.value, "\n");
    } else {
      assert head == two;
    }
    TerminatedAppend(head, fax, "\n");
    assert ContactHead(e) == head + [fax];
  }

  lemma VCardLinkOneLine(staffId: string)
    requires '\n' !in staffId
    ensures '\n' !in VCardLink(staffId)
  {
    assert '\n' !in UrlUfindApi;
  }

  /** Without line breaks in the values, the contact block has exactly the expected lines, in order. */
  lemma ContactHasLines(staffId: string, e: ContactElement)
    requires '\n' !in staffId && OneLine(e.email) && OneLine(e.tel) && OneLine(e.fax) && OneLine(e.mobile)
    ensures Split(Contact(staffId, Some(e)).value, "\n") == ContactLines(staffId, e)
    ensures |ContactLines(staffId, e)| == if e.mobile.Some? then 5 else 4
  {
    ContactIsTerminatedHead(staffId, e);
    TerminatedJoin(ContactHead(e), VCardLink(staffId), "\n");
    VCardLinkOneLine(staffId);
    var lines := ContactLines(staffId, e);
    assert forall k :: 0 <= k < |lines| ==> "\n"[0] !in lines[k];
    SplitJoin(lines, "\n");
  }

  // ----------------------------------------------------------- staff weblinks

  /** `ucris.replace("(", "%28").replace(")", "%29")` */
  function EncodeParens(url: string): (r: string) {
    Replace(Replace(url, "(", "%28"), ")", "%29")
  }

  /** The encoded link holds no parenthesis, so it cannot close the Markdown link early. */
  lemma EncodeParensNoParens(url: string)
    ensures '(' !in EncodeParens(url) && ')' !in EncodeParens(url)
  {
    var once := Replace(url, "(", "%28");
    ReplaceCharGone(url, '(', "%28");
    ReplaceCharGone(once, ')', "%29");
    if '(' in EncodeParens(url) {
      ReplaceFrom(once, ")", "%29", '(');
    }
  }

  function UfindLine(staffId: string): string {
    "- [u:find](" + (UrlUfind + "/person.html?id=" + staffId + "&more=true") + ")"
  }

  function HomepageLine(homepage: string): string {
    "- [Homepage](" + homepage + ")"
  }

  function PublicationsLine(ucris: string): string {
    "- [Publikationen](" + EncodeParens(ucris) + ")"
  }

  /** `_create_staff_embed_weblinks`: no id gives no links; the u:find link first, then those present. */
  function Weblinks(staffId: Option<string>, homepage: Option<string>, ucris: Option<string>): (r: Option<string>)
    ensures r.None? <==> staffId.None?
  {
    if staffId.None? then None
    else
      var links := UfindLine(staffId.value) + "\n";
      var withHomepage := if homepage.Some? then links + HomepageLine(homepage.value) + "\n" else links;
      Some(if ucris.Some? then withHomepage + PublicationsLine(ucris.value) + "\n" else withHomepage)
  }

  function WeblinkLines(staffId: string, homepage: Option<string>, ucris: Option<string>): seq<string> {
    [UfindLine(staffId)]
    + (if homepage.Some? then [HomepageLine(homepage.value)] else [])
    + (if ucris.Some? then [PublicationsLine(ucris.value)] else [])
  }

  lemma WeblinksTerminated(staffId: string, homepage: Option<string>, ucris: Option<string>)
    ensures Weblinks(Some(staffId), homepage, ucris).value == Terminated(WeblinkLines(staffId, homepage, ucris), "\n")
  {
    var l0 := [UfindLine(staffId)];
    var l1 := l0 + (if homepage.Some? then [HomepageLine(homepage.value)] else []);
    var lines := WeblinkLines(staffId, homepage, ucris);
    var links := UfindLine(staffId) + "\n";
    var withHomepage := if homepage.Some? then links + HomepageLine(homepage.value) + "\n" else links;
    assert Terminated(l0, "\n") == links by {
      TerminatedAppend([], UfindLine(staffId), "\n");
      assert [] + l0 == l0;
    }
    assert Terminated(l1, "\n") == withHomepage by {
      if homepage.Some? {
        TerminatedAppend(l0, HomepageLine(homepage.value), "\n");
      } else {
        assert l1 == l0;
      }
    }
    if ucris.Some? {
      TerminatedAppend(l1, PublicationsLine(ucris.value), "\n");
      assert lines == l1 + [PublicationsLine(ucris.value)];
    } else {
      assert lines == l1;
    }
  }

  lemma WeblinkLinesOneLine(staffId: string, homepage: Option<string>, ucris: Option<string>)
    requires '\n' !in staffId && OneLine(homepage) && OneLine(ucris)
    ensures forall k :: 0 <= k < |WeblinkLines(staffId, homepage, ucris)| ==> "\n"[0] !in WeblinkLines(staffId, homepage, ucris)[k]
  {
    UfindLineOneLine(staffId);
    if homepage.Some? {
      HomepageLineOneLine(homepage.value);
    }
    if ucris.Some? {
      PublicationsLineOneLine(ucris.value);
    }
  }

  lemma UfindLineOneLine(staffId: string)
    requires '\n' !in staffId
    ensures '\n' !in UfindLine(staffId)
  {
    assert '\n' !in UrlUfind;
  }

  lemma HomepageLineOneLine(homepage: string)
    requires '\n' !in homepage
    ensures '\n' !in HomepageLine(homepage)
  {
  }

  lemma PublicationsLineOneLine(ucris: string)
    requires '\n' !in ucris
    ensures '\n' !in PublicationsLine(ucris)
  {
    ReplaceCharFromNone(ucris);
  }

  /** Each link is a line of its own, the u:find link first, the others only when present. */
  lemma WeblinksHaveLines(staffId: string, homepage: Option<string>, ucris: Option<string>)
    requires '\n' !in staffId && OneLine(homepage) && OneLine(ucris)
    ensures Split(Weblinks(Some(staffId), homepage, ucris).value, "\n") == WeblinkLines(staffId, homepage, ucris) + [""]
  {
    WeblinksTerminated(staffId, homepage, ucris);
    WeblinkLinesOneLine(staffId, homepage, ucris);
    SplitTerminated(WeblinkLines(staffId, homepage, ucris), "\n");
  }

  /** The encoding brings in no line break. */
  lemma ReplaceCharFromNone(url: string)
    requires '\n' !in url
    ensures '\n' !in EncodeParens(url)
  {
    var once := Replace(url, "(", "%28");
    if '\n' in once {
      ReplaceFrom(url, "(", "%28", '\n');
    }
    if '\n' in EncodeParens(url) {
      ReplaceFrom(once, ")", "%29", '\n');
    }
  }

  // -------------------------------------------------------- staff assignments

  /** An `assignment` element: the texts of its `name` and `role` children. */
  datatype Assignment = Assignment(name: Option<string>, role: Option<string>)

  function AssignmentHead(a: Assignment): string {
    "__" + Shown(a.name) + "__"
  }

  function AssignmentRole(a: Assignment): string {
    "- " + Shown(a.role)
  }

  /** Two lines per assignment, in order: its name, then its role as a list item. */
  function AssignmentLines(assignments: seq<Assignment>): (r: seq<string>)
    ensures |r| == 2 * |assignments|
    ensures forall k :: 0 <= k < |assignments| ==>
      r[2 * k] == AssignmentHead(assignments[k]) && r[2 * k + 1] == AssignmentRole(assignments[k])
  {
    if assignments == [] then []
    else
      var last := assignments[|assignments| - 1];
      AssignmentLines(assignments[..|assignments| - 1]) + [AssignmentHead(last), AssignmentRole(last)]
  }

  /**
   * `_create_staff_embed_assignments`: no element or an empty one gives nothing;
   * otherwise the string built line by line in the loop.
   */
  method Assignments(element: Option<seq<Assignment>>) returns (r: Option<string>)
    ensures r.None? <==> element.None? || element.value == []
    ensures r.Some? ==> r.value == Terminated(AssignmentLines(element.value), "\n")
  {
    if element.None? || |element.value| == 0 {
      return None;
    }
    var assignments := element.value;
    var s := "";
    var i := 0;
    while i < |assignments|
      invariant 0 <= i <= |assignments|
      invariant s == Terminated(AssignmentLines(assignments[..i]), "\n")
    {
      var assignment := assignments[i];
      AssignmentTextStep(assignments, i);
      s := s + AssignmentHead(assignment) + "\n" + AssignmentRole(assignment) + "\n";
      i := i + 1;
    }
    assert assignments[..i] == assignments;
    return Some(s);
  }

  /** One more assignment adds its name line and its role line. */
  lemma AssignmentTextStep(assignments: seq<Assignment>, i: nat)
    requires i < |assignments|
    ensures var a := assignments[i];
      Terminated(AssignmentLines(assignments[..i + 1]), "\n") ==
        Terminated(AssignmentLines(assignments[..i]), "\n") + AssignmentHead(a) + "\n" + AssignmentRole(a) + "\n"
  {
    var a := assignments[i];
    var lines := AssignmentLines(assignments[..i]);
    assert assignments[..i + 1][..i] == assignments[..i];
    assert AssignmentLines(assignments[..i + 1]) == lines + [AssignmentHead(a)] + [AssignmentRole(a)];
    TerminatedAppend(lines, AssignmentHead(a), "\n");
    TerminatedAppend(lines + [AssignmentHead(a)], AssignmentRole(a), "\n");
  }

  lemma {:induction false} AssignmentLinesOneLine(assignments: seq<Assignment>)
    requires forall k :: 0 <= k < |assignments| ==> OneLine(assignments[k].name) && OneLine(assignments[k].role)
    ensures forall j :: 0 <= j < |AssignmentLines(assignments)| ==> "\n"[0] !in AssignmentLines(assignments)[j]
    decreases |assignments|
  {
    if assignments != [] {
      var front := assignments[..|assignments| - 1];
      var last := assignments[|assignments| - 1];
      AssignmentLinesOneLine(front);
      assert '\n' !in AssignmentHead(last) && '\n' !in AssignmentRole(last);
    }
  }

  /** Without line breaks in the texts, the field has two lines per assignment and ends with a line break. */
  lemma AssignmentsHaveLines(assignments: seq<Assignment>)
    requires forall k :: 0 <= k < |assignments| ==> OneLine(assignments[k].name) && OneLine(assignments[k].role)
    ensures Split(Terminated(AssignmentLines(assignments), "\n"), "\n") == AssignmentLines(assignments) + [""]
  {
    AssignmentLinesOneLine(assignments);
    SplitTerminated(AssignmentLines(assignments), "\n");
  }

  // ----------------------------------------------------------- staff teaching

  /** A `course` of a semester: the texts of its `type` and `longname` children. */
  datatype TeachingCourse = TeachingCourse(courseType: Option<string>, longName: Option<string>)

  /** A `semester` element: its `id` attribute and its courses. */
  datatype Semester = Semester(id: string, courses: seq<TeachingCourse>)

  function TypeOf(c: TeachingCourse): string {
    if c.courseType.Some? then c.courseType.value else "Undefined"
  }

  function NameOf(c: TeachingCourse): string {
    if c.longName.Some? then c.longName.value else "Undefined"
  }

  /** Every course but LP courses and Bachelor and Master seminars is listed. */
  predicate Listed(c: TeachingCourse) {
    TypeOf(c) != "LP" && !Contains(NameOf(c), "Bachelorseminar") && !Contains(NameOf(c), "Masterseminar")
  }

  function CourseLine(c: TeachingCourse): string {
    "- **" + TypeOf(c) + "** " + NameOf(c)
  }

  function SemesterHeader(s: Semester): string {
    "__" + s.id + "__"
  }

  /** The lines of the listed courses, in order. */
  function CourseLines(courses: seq<TeachingCourse>): (r: seq<string>)
    ensures |r| <= |courses|
  {
    if courses == [] then []
    else
      var last := courses[|courses| - 1];
      CourseLines(courses[..|courses| - 1]) + (if Listed(last) then [CourseLine(last)] else [])
  }

  /** Exactly the listed courses get a line: LP courses and seminars never do, every other course does. */
  lemma {:induction false} CourseLinesMeaning(courses: seq<TeachingCourse>)
    ensures forall l :: l in CourseLines(courses) ==> exists c :: c in courses && Listed(c) && l == CourseLine(c)
    ensures forall c :: c in courses && Listed(c) ==> CourseLine(c) in CourseLines(courses)
    decreases |courses|
  {
    if courses != [] {
      var front := courses[..|courses| - 1];
      var last := courses[|courses| - 1];
      assert courses == front + [last];
      CourseLinesMeaning(front);
    }
  }

  /** Every semester is its header line and then its listed courses. */
  function TeachingLines(semesters: seq<Semester>): seq<string> {
    if semesters == [] then []
    else
      var last := semesters[|semesters| - 1];
      TeachingLines(semesters[..|semesters| - 1]) + ([SemesterHeader(last)] + CourseLines(last.courses))
  }

  /** The loop stops after the second semester. */
  function ListedSemesters(semesters: seq<Semester>): (r: seq<Semester>)
    ensures |r| <= 2 && r <= semesters
    ensures |semesters| >= 2 ==> |r| == 2
  {
    semesters[..if |semesters| < 2 then |semesters| else 2]
  }

  function TeachingLink(staffId: string): string {
    "[Weitere Lehre](" + UrlUfind + "/person.html?id=" + staffId + "&teaching=true)"
  }

  const TeachingFieldLimit := 1024
  const Indicator: string := "- [...]\n"

  /**
   * The end of `_create_staff_embed_teaching`: a body too long for the field
   * together with the link is cut to the room left beside the indicator and the
   * link, then back to its last line break.
   */
  function FitTeaching(body: string, link: string): (r: string)
    ensures EndsWith(r, link)
    ensures |body + link| <= TeachingFieldLimit ==> r == body + link
  {
    if |body + link| > TeachingFieldLimit then
      var charsRemaining := TeachingFieldLimit - |Indicator + link|;
      var shortened := Take(body, charsRemaining);
      var whole := Take(shortened, RFind(shortened, '\n') + 1);
      whole + Indicator + link
    else body + link
  }

  /** The field limit holds whenever the indicator and the link fit on their own. */
  lemma TeachingWithinLimit(body: string, link: string)
    requires |Indicator| + |link| <= TeachingFieldLimit
    ensures |FitTeaching(body, link)| <= TeachingFieldLimit
  {
  }

  /**
   * A cut body keeps whole lines: it is the part of the body up to a line
   * break, and no further line break fits in the room left.
   */
  lemma TeachingCutAtLine(body: string, link: string) returns (k: nat)
    requires |body + link| > TeachingFieldLimit
    ensures k <= |body| && FitTeaching(body, link) == body[..k] + Indicator + link
    ensures k == 0 || body[k - 1] == '\n'
    ensures forall j :: k <= j < SliceIndex(|body|, TeachingFieldLimit - |Indicator + link|) ==> body[j] != '\n'
  {
    var room := SliceIndex(|body|, TeachingFieldLimit - |Indicator + link|);
    var shortened := Take(body, TeachingFieldLimit - |Indicator + link|);
    assert shortened == body[..room];
    var p := RFind(shortened, '\n');
    var whole := Take(shortened, p + 1);
    assert whole == shortened[..p + 1];
    k := p + 1;
    assert whole == body[..k];
    forall j | k <= j < room ensures body[j] != '\n' {
      assert shortened[j] == body[j];
    }
  }

  /** The inner loop of `_create_staff_embed_teaching`: one line per listed course of a semester. */
  method AppendListedCourses(body: string, ghost done: seq<string>, courses: seq<TeachingCourse>) returns (b: string)
    requires body == Terminated(done, "\n")
    ensures b == Terminated(done + CourseLines(courses), "\n")
  {
    b := body;
    var j := 0;
    assert done + CourseLines(courses[..0]) == done;
    while j < |courses|
      invariant 0 <= j <= |courses|
      invariant b == Terminated(done + CourseLines(courses[..j]), "\n")
    {
      var course := courses[j];
      CourseLinesStep(done, courses, j);
      if Listed(course) {
        b := b + CourseLine(course) + "\n";
      }
      j := j + 1;
    }
    assert courses[..j] == courses;
  }

  /** One more course adds its line exactly when it is listed. */
  lemma CourseLinesStep(done: seq<string>, courses: seq<TeachingCourse>, j: nat)
    requires j < |courses|
    ensures var c := courses[j];
      Terminated(done + CourseLines(courses[..j + 1]), "\n") ==
        Terminated(done + CourseLines(courses[..j]), "\n") + (if Listed(c) then CourseLine(c) + "\n" else "")
  {
    var c := courses[j];
    var sofar := done + CourseLines(courses[..j]);
    assert courses[..j + 1][..j] == courses[..j];
    if Listed(c) {
      TerminatedAppend(sofar, CourseLine(c), "\n");
      assert done + CourseLines(courses[..j + 1]) == sofar + [CourseLine(c)];
    } else {
      assert done + CourseLines(courses[..j + 1]) == sofar;
    }
  }

  /** The semester loop of `_create_staff_embed_teaching`, which breaks after the second semester. */
  method TeachingBody(semesters: seq<Semester>) returns (body: string)
    ensures body == Terminated(TeachingLines(ListedSemesters(semesters)), "\n")
  {
    body := "";
    var index := 0;
    while index < |semesters|
      invariant 0 <= index <= |semesters| && index <= 1
      invariant body == Terminated(TeachingLines(semesters[..index]), "\n")
    {
      var semester := semesters[index];
      var header := SemesterHeader(semester);
      ghost var before := TeachingLines(semesters[..index]);
      TerminatedAppend(before, header, "\n");
      body := body + header + "\n";
      body := AppendListedCourses(body, before + [header], semester.courses);
      assert semesters[..index + 1] == semesters[..index] + [semester];
      assert TeachingLines(semesters[..index + 1]) == before + ([header] + CourseLines(semester.courses));
      assert before + [header] + CourseLines(semester.courses) == TeachingLines(semesters[..index + 1]);
      index := index + 1;
      if index >= 2 {
        break;
      }
    }
    assert semesters[..index] == ListedSemesters(semesters);
  }

  /**
   * `_create_staff_embed_teaching`: no element gives nothing; otherwise the
   * header and listed courses of at most the first two semesters, fitted to the
   * field together with the link to the full teaching list.
   */
  method Teaching(staffId: string, element: Option<seq<Semester>>) returns (r: Option<string>)
    ensures r.None? <==> element.None?
    ensures r.Some? ==>
      r.value == FitTeaching(Terminated(TeachingLines(ListedSemesters(element.value)), "\n"), TeachingLink(staffId))
  {
    if element.None? {
      return None;
    }
    var body := TeachingBody(element.value);
    var link := TeachingLink(staffId);
    if |body + link| > TeachingFieldLimit {
      ghost var full := body;
      var indicator := Indicator;
      var charsRemaining := TeachingFieldLimit - |indicator + link|;
      body := Take(body, charsRemaining);
      body := Take(body, RFind(body, '\n') + 1);
      body := body + indicator;
      assert body + link == FitTeaching(full, link);
    }
    return Some(body + link);
  }
}
