/**
 * `bot/persistence/queries.py`: the rows of the bot's tables and the meaning of
 * the SQL statements run on them, as functions over those rows. A table is the
 * sequence of its rows in insertion (ROWID) order; a `WHERE` clause is `Where`,
 * a `LIMIT 1` read is `FirstWhere`, a `SELECT DISTINCT` is a set.
 */
module Queries {
  import opened Wrappers
  import opened Text
  import opened ModmailStatusEnum
  import opened SuggestionStatusEnum

  // ------------------------------------------------------------------ rows

  /** A row of `MemberWarning`; a timestamp is a number of seconds. */
  datatype Warning = Warning(id: nat, userId: int, timestamp: int, reason: Option<string>)

  /** A row of `MemberNameHistory`: a nickname a member used until `timestamp`. */
  datatype NameChange = NameChange(userId: int, name: string, timestamp: int)

  /** A row of `CourseRole`. */
  datatype CourseRole = CourseRole(roleId: int, courseId: string)

  /** A row of `ReactionRole`. */
  datatype ReactionRole = ReactionRole(messageId: int, emoji: string, roleId: int)

  /** A row of `Suggestion`; the message id is NULL until the embed has been posted. */
  datatype Suggestion = Suggestion(id: nat, authorId: int, timestamp: int, messageId: Option<int>, status: SuggestionStatus)

  /** A row of `Modmail`, keyed by the id of the message that was submitted. */
  datatype Modmail = Modmail(id: int, author: string, timestamp: int, status: ModmailStatus)

  /** A row of `GroupOffer`: the group a user gives up in a course (the course channel's id). */
  datatype GroupOffer = GroupOffer(userId: int, course: int, groupNr: int, messageId: Option<int>)

  /** A row of `GroupRequest`: a group the user would take in exchange. */
  datatype GroupRequest = GroupRequest(userId: int, course: int, groupNr: int)

  /** A row of the candidate query: `offer.UserId, offer.MessageId, offer.GroupNr`. */
  datatype Candidate = Candidate(userId: int, messageId: Option<int>, groupNr: int)

  /** A row of a user's exchange listing: one offer and the groups requested with it. */
  datatype Listing = Listing(course: int, messageId: Option<int>, groupNr: int, requested: seq<int>)

  // ------------------------------------------------------- generic clauses

  /** The rows of `s` that satisfy `p`, in table order. */
  function Where<T(!new)>(s: seq<T>, p: T -> bool): (r: seq<T>)
    ensures |r| <= |s|
    ensures forall x :: x in r <==> x in s && p(x)
  {
    if s == [] then [] else (if p(s[0]) then [s[0]] else []) + Where(s[1..], p)
  }

  /** A clause selects nothing exactly when no row satisfies it. */
  lemma WhereEmpty<T(!new)>(s: seq<T>, p: T -> bool)
    ensures Where(s, p) == [] <==> forall x :: x in s ==> !p(x)
  {
    var r := Where(s, p);
    if r != [] {
      assert r[0] in r;
    }
  }

  lemma {:induction false} WhereAppend<T(!new)>(s: seq<T>, t: seq<T>, p: T -> bool)
    ensures Where(s + t, p) == Where(s, p) + Where(t, p)
  {
    if s == [] {
      assert s + t == t;
    } else {
      assert (s + t)[1..] == s[1..] + t;
      WhereAppend(s[1..], t, p);
    }
  }

  /** Rows that all satisfy the clause are all kept. */
  lemma {:induction false} WhereAll<T(!new)>(s: seq<T>, p: T -> bool)
    requires forall i :: 0 <= i < |s| ==> p(s[i])
    ensures Where(s, p) == s
  {
    if s != [] {
      WhereAll(s[1..], p);
    }
  }

  /** A clause that drops nothing keeps the table as it is. */
  lemma {:induction false} WhereKeepsAllWhenSameLength<T(!new)>(s: seq<T>, p: T -> bool)
    requires |Where(s, p)| == |s|
    ensures Where(s, p) == s
  {
    if s != [] {
      assert |Where(s[1..], p)| <= |s| - 1;
      WhereKeepsAllWhenSameLength(s[1..], p);
    }
  }

  /** The first row `WHERE ... LIMIT 1` returns: the first row satisfying `p`, if any. */
  function FirstWhere<T(!new)>(s: seq<T>, p: T -> bool): (r: Option<T>)
    ensures r.None? <==> forall x :: x in s ==> !p(x)
    ensures r.Some? ==> r.value in s && p(r.value) && r.value == Where(s, p)[0]
  {
    if s == [] then None else if p(s[0]) then Some(s[0]) else FirstWhere(s[1..], p)
  }

  function Reverse<T(!new)>(s: seq<T>): (r: seq<T>)
    ensures |r| == |s|
    ensures forall x :: x in r <==> x in s
    ensures forall i :: 0 <= i < |s| ==> r[i] == s[|s| - 1 - i]
  {
    if s == [] then [] else Reverse(s[1..]) + [s[0]]
  }

  /** `fetchall()` gives a list; the connector answers `None` instead of an empty one. */
  function NonEmpty<T>(rows: seq<T>): (r: Option<seq<T>>)
    ensures r.None? <==> rows == []
    ensures r.Some? ==> r.value == rows && |r.value| > 0
  {
    if rows == [] then None else Some(rows)
  }

  function NonEmptySet<T>(rows: set<T>): (r: Option<set<T>>)
    ensures r.None? <==> rows == {}
    ensures r.Some? ==> r.value == rows && |r.value| > 0
  {
    if rows == {} then None else Some(rows)
  }

  // ----------------------------------------------------------- name history

  /** `GET_MEMBER_NAMES`: a member's names, `ORDER BY ROWID DESC`. */
  function NameHistory(names: seq<NameChange>, userId: int): (r: seq<NameChange>)
    ensures forall n :: n in r <==> n in names && n.userId == userId
  {
    Reverse(Where(names, (n: NameChange) => n.userId == userId))
  }

  /** The name recorded last is listed first, before all earlier ones. */
  lemma NameHistoryNewestFirst(names: seq<NameChange>, e: NameChange)
    ensures NameHistory(names + [e], e.userId) == [e] + NameHistory(names, e.userId)
  {
    var p := (n: NameChange) => n.userId == e.userId;
    WhereAppend(names, [e], p);
    assert Where([e], p) == [e];
    var w := Where(names, p);
    assert Reverse(w + [e]) == [e] + Reverse(w);
  }

  // ---------------------------------------------------------------- modmail

  /** `GET_MODMAIL_STATUS`: the status of the first row for the message. */
  function ModmailStatusOf(rows: seq<Modmail>, id: int): (r: Option<ModmailStatus>)
    ensures r.None? <==> forall m :: m in rows ==> m.id != id
    ensures r.Some? ==> exists m :: m in rows && m.id == id && m.status == r.value
  {
    if rows == [] then None
    else if rows[0].id == id then Some(rows[0].status)
    else ModmailStatusOf(rows[1..], id)
  }

  /** `CHANGE_MODMAIL_STATUS`: every row for the message gets the status, the others are kept. */
  function SetModmailStatus(rows: seq<Modmail>, id: int, status: ModmailStatus): (r: seq<Modmail>)
    ensures |r| == |rows|
    ensures forall i :: 0 <= i < |rows| ==> r[i] == if rows[i].id == id then rows[i].(status := status) else rows[i]
  {
    if rows == [] then []
    else [if rows[0].id == id then rows[0].(status := status) else rows[0]] + SetModmailStatus(rows[1..], id, status)
  }

  /** After the update the message reads back with the new status, if it is in the table at all. */
  lemma {:induction false} StatusAfterChange(rows: seq<Modmail>, id: int, status: ModmailStatus)
    ensures ModmailStatusOf(SetModmailStatus(rows, id, status), id) ==
      if ModmailStatusOf(rows, id).Some? then Some(status) else None
  {
    if rows != [] {
      StatusAfterChange(rows[1..], id, status);
      assert SetModmailStatus(rows, id, status)[1..] == SetModmailStatus(rows[1..], id, status);
    }
  }

  /** The update leaves every other message's status alone. */
  lemma {:induction false} OtherStatusUnchanged(rows: seq<Modmail>, id: int, status: ModmailStatus, other: int)
    requires other != id
    ensures ModmailStatusOf(SetModmailStatus(rows, id, status), other) == ModmailStatusOf(rows, other)
  {
    if rows != [] {
      OtherStatusUnchanged(rows[1..], id, status, other);
      assert SetModmailStatus(rows, id, status)[1..] == SetModmailStatus(rows[1..], id, status);
    }
  }

  // --------------------------------------------------------- group exchange

  /** At most one offer per user and course: the constraint behind the IntegrityError of a second offer. */
  predicate UniqueOffers(offers: seq<GroupOffer>) {
    forall i, j ::
      0 <= i < |offers| && 0 <= j < |offers| && offers[i].userId == offers[j].userId && offers[i].course == offers[j].course
      ==> i == j
  }

  /** An offer for a pair that has none keeps the constraint. */
  lemma AppendOfferKeepsUnique(offers: seq<GroupOffer>, o: GroupOffer)
    requires UniqueOffers(offers) && !HasOffer(offers, o.userId, o.course)
    ensures UniqueOffers(offers + [o])
  {
    var all := offers + [o];
    forall a, b | 0 <= a < |all| && 0 <= b < |all| && all[a].userId == all[b].userId && all[a].course == all[b].course
      ensures a == b
    {
      if a < |offers| {
        assert offers[a] in offers;
      }
      if b < |offers| {
        assert offers[b] in offers;
      }
    }
  }

  /** Deleting rows never breaks the one-offer-per-course constraint. */
  lemma {:induction false} WhereKeepsUnique(offers: seq<GroupOffer>, p: GroupOffer -> bool)
    requires UniqueOffers(offers)
    ensures UniqueOffers(Where(offers, p))
  {
    if offers != [] {
      var tail := offers[1..];
      assert UniqueOffers(tail) by {
        forall a, b | 0 <= a < |tail| && 0 <= b < |tail| && tail[a].userId == tail[b].userId &&
          tail[a].course == tail[b].course
          ensures a == b
        {
          assert offers[a + 1] == tail[a] && offers[b + 1] == tail[b];
        }
      }
      WhereKeepsUnique(tail, p);
      var r := Where(offers, p);
      if p(offers[0]) {
        forall b | 1 <= b < |r| ensures r[b].userId != r[0].userId || r[b].course != r[0].course {
          assert r[b] in Where(tail, p);
          var j :| 0 <= j < |tail| && tail[j] == r[b];
          assert offers[j + 1] == r[b];
        }
      }
    }
  }

  predicate HasOffer(offers: seq<GroupOffer>, userId: int, course: int) {
    exists o :: o in offers && o.userId == userId && o.course == course
  }

  /** The join condition `offer.Course = request.Course AND offer.UserId = request.UserId`. */
  predicate Joins(o: GroupOffer, q: GroupRequest) {
    o.course == q.course && o.userId == q.userId
  }

  /** The `WHERE` clause of `FIND_GROUP_EXCHANGE_CANDIDATES` for one joined pair. */
  predicate CandidateRow(o: GroupOffer, q: GroupRequest, userId: int, course: int, offered: int, requested: seq<int>) {
    Joins(o, q) && o.userId != userId && o.course == course && q.groupNr == offered && o.groupNr in requested
  }

  /** `FIND_GROUP_EXCHANGE_CANDIDATES`, with `SELECT DISTINCT` as a set. */
  function Candidates(offers: seq<GroupOffer>, requests: seq<GroupRequest>, userId: int, course: int,
                      offered: int, requested: seq<int>): (r: set<Candidate>)
    ensures forall c :: c in r ==> c.userId != userId && c.groupNr in requested
    ensures forall c :: c in r ==>
      (exists o :: o in offers && o.course == course && c == Candidate(o.userId, o.messageId, o.groupNr))
    ensures offers == [] || requests == [] || requested == [] ==> r == {}
  {
    set o, q | o in offers && q in requests && CandidateRow(o, q, userId, course, offered, requested)
      :: Candidate(o.userId, o.messageId, o.groupNr)
  }

  /**
   * `SELECT EXISTS(SELECT 1 FROM <table> WHERE <key> = ?)` on a table of keys:
   * the single column of the single row is 1 or 0.
   */
  function SelectExists(table: set<int>, key: int): (r: int)
    ensures r == 0 || r == 1
    ensures r == 1 <==> key in table
  {
    if key in table then 1 else 0
  }

  /** The placeholders formatted into the `IN (...)` list: one '?' per requested group. */
  function Placeholders(n: nat): (r: string)
    ensures Count(r, '?') == n
    ensures n == 0 <==> r == []
  {
    if n == 0 then "" else if n == 1 then "?" else
      CountAppend("?, ", Placeholders(n - 1), '?');
      "?, " + Placeholders(n - 1)
  }

  /** The parameters bound to the candidate query: the three fixed ones, then the requested groups. */
  function CandidateParameters(userId: int, course: int, offered: int, requested: seq<int>): (r: seq<int>)
    ensures |r| == 3 + Count(Placeholders(|requested|), '?')
    ensures r[3..] == requested
  {
    [userId, course, offered] + requested
  }

  /** The groups requested with a user's offer in a course, in table order. */
  function RequestedGroups(requests: seq<GroupRequest>, userId: int, course: int): (r: seq<int>)
    ensures forall g :: g in r <==> exists q :: q in requests && q.userId == userId && q.course == course && q.groupNr == g
  {
    if requests == [] then []
    else
      var q := requests[0];
      (if q.userId == userId && q.course == course then [q.groupNr] else []) + RequestedGroups(requests[1..], userId, course)
  }

  /** The request rows one offer inserts: one per requested group, for the same user and course. */
  function RequestRows(userId: int, course: int, requested: seq<int>): (r: seq<GroupRequest>)
    ensures |r| == |requested|
    ensures forall i :: 0 <= i < |r| ==> r[i] == GroupRequest(userId, course, requested[i])
  {
    seq(|requested|, i requires 0 <= i < |requested| => GroupRequest(userId, course, requested[i]))
  }

  lemma {:induction false} RequestedGroupsAppend(requests: seq<GroupRequest>, more: seq<GroupRequest>, userId: int, course: int)
    ensures RequestedGroups(requests + more, userId, course) == RequestedGroups(requests, userId, course) + RequestedGroups(more, userId, course)
  {
    if requests == [] {
      assert requests + more == more;
    } else {
      assert (requests + more)[0] == requests[0];
      assert (requests + more)[1..] == requests[1..] + more;
      RequestedGroupsAppend(requests[1..], more, userId, course);
    }
  }

  lemma {:induction false} RequestedGroupsOfRows(userId: int, course: int, requested: seq<int>)
    ensures RequestedGroups(RequestRows(userId, course, requested), userId, course) == requested
  {
    if requested != [] {
      var rows := RequestRows(userId, course, requested);
      assert rows[1..] == RequestRows(userId, course, requested[1..]);
      RequestedGroupsOfRows(userId, course, requested[1..]);
      assert requested == [requested[0]] + requested[1..];
    }
  }

  lemma {:induction false} RequestedGroupsNone(requests: seq<GroupRequest>, userId: int, course: int)
    requires forall q :: q in requests ==> q.userId != userId || q.course != course
    ensures RequestedGroups(requests, userId, course) == []
  {
    if requests != [] {
      RequestedGroupsNone(requests[1..], userId, course);
    }
  }

  /** A user without requests in a course who inserts new rows there requests exactly those groups. */
  lemma RequestedAfterInsert(requests: seq<GroupRequest>, userId: int, course: int, requested: seq<int>)
    requires forall q :: q in requests ==> q.userId != userId || q.course != course
    ensures RequestedGroups(requests + RequestRows(userId, course, requested), userId, course) == requested
  {
    RequestedGroupsAppend(requests, RequestRows(userId, course, requested), userId, course);
    RequestedGroupsOfRows(userId, course, requested);
    RequestedGroupsNone(requests, userId, course);
  }

  /**
   * The candidate rule in words: a candidate is the offer of another user in the
   * same course who requests the offered group and offers one of the requested groups.
   */
  lemma CandidateMeaning(offers: seq<GroupOffer>, requests: seq<GroupRequest>, userId: int, course: int,
                         offered: int, requested: seq<int>, c: Candidate)
    ensures c in Candidates(offers, requests, userId, course, offered, requested) <==>
      (exists o :: o in offers && o.userId == c.userId && o.messageId == c.messageId && o.groupNr == c.groupNr &&
        o.course == course && c.userId != userId && c.groupNr in requested &&
        offered in RequestedGroups(requests, o.userId, course))
  {
    var cs := Candidates(offers, requests, userId, course, offered, requested);
    if c in cs {
      var o, q :| o in offers && q in requests && CandidateRow(o, q, userId, course, offered, requested) &&
        c == Candidate(o.userId, o.messageId, o.groupNr);
      assert offered in RequestedGroups(requests, o.userId, course);
    }
    if exists o :: o in offers && o.userId == c.userId && o.messageId == c.messageId && o.groupNr == c.groupNr &&
        o.course == course && c.userId != userId && c.groupNr in requested &&
        offered in RequestedGroups(requests, o.userId, course) {
      var o :| o in offers && o.userId == c.userId && o.messageId == c.messageId && o.groupNr == c.groupNr &&
        o.course == course && c.userId != userId && c.groupNr in requested &&
        offered in RequestedGroups(requests, o.userId, course);
      var q :| q in requests && q.userId == o.userId && q.course == course && q.groupNr == offered;
      assert CandidateRow(o, q, userId, course, offered, requested);
    }
  }

  /** With one offer per user and course, the user and course determine the offer. */
  lemma OfferOfUser(offers: seq<GroupOffer>, o: GroupOffer, p: GroupOffer)
    requires UniqueOffers(offers) && o in offers && p in offers
    requires o.userId == p.userId && o.course == p.course
    ensures o == p
  {
    var i :| 0 <= i < |offers| && offers[i] == o;
    var j :| 0 <= j < |offers| && offers[j] == p;
  }

  /** `a` is matched by the candidate query run for `b`'s offer with `b`'s own requests. */
  predicate MatchedFor(offers: seq<GroupOffer>, requests: seq<GroupRequest>, a: GroupOffer, b: GroupOffer) {
    Candidate(a.userId, a.messageId, a.groupNr) in
      Candidates(offers, requests, b.userId, b.course, b.groupNr, RequestedGroups(requests, b.userId, b.course))
  }

  lemma MatchedForMeans(offers: seq<GroupOffer>, requests: seq<GroupRequest>, a: GroupOffer, b: GroupOffer)
    requires UniqueOffers(offers) && a in offers && b in offers && a.course == b.course
    ensures MatchedFor(offers, requests, a, b) <==>
      a.userId != b.userId && a.groupNr in RequestedGroups(requests, b.userId, b.course) &&
      b.groupNr in RequestedGroups(requests, a.userId, a.course)
  {
    var c := Candidate(a.userId, a.messageId, a.groupNr);
    CandidateMeaning(offers, requests, b.userId, b.course, b.groupNr, RequestedGroups(requests, b.userId, b.course), c);
    if MatchedFor(offers, requests, a, b) {
      var o :| o in offers && o.userId == c.userId && o.messageId == c.messageId && o.groupNr == c.groupNr &&
        o.course == b.course && c.userId != b.userId && c.groupNr in RequestedGroups(requests, b.userId, b.course) &&
        b.groupNr in RequestedGroups(requests, o.userId, b.course);
      OfferOfUser(offers, o, a);
    }
  }

  /**
   * Matching is symmetric: when every offer's requests are those in the table,
   * `a` is a candidate for `b`'s offer exactly when `b` is one for `a`'s, so
   * notifying the candidates of a new offer reaches each partner whose own query
   * would find the new offer.
   */
  lemma CandidateSymmetry(offers: seq<GroupOffer>, requests: seq<GroupRequest>, a: GroupOffer, b: GroupOffer)
    requires UniqueOffers(offers) && a in offers && b in offers && a.course == b.course
    ensures MatchedFor(offers, requests, a, b) <==> MatchedFor(offers, requests, b, a)
  {
    MatchedForMeans(offers, requests, a, b);
    MatchedForMeans(offers, requests, b, a);
  }

  /** `GET_GROUP_EXCHANGE_FOR_USER`: one row per course in which the user has an offer with requests. */
  function ExchangeListing(offers: seq<GroupOffer>, requests: seq<GroupRequest>, userId: int): (r: set<Listing>)
    ensures forall l :: l in r ==> HasOffer(offers, userId, l.course) && l.requested != []
  {
    set o | o in offers && o.userId == userId && RequestedGroups(requests, userId, o.course) != []
      :: Listing(o.course, o.messageId, o.groupNr, RequestedGroups(requests, userId, o.course))
  }

  /** The listing has one row per course: `GROUP BY offer.Course` over unique offers. */
  lemma ListingOneRowPerCourse(offers: seq<GroupOffer>, requests: seq<GroupRequest>, userId: int, l: Listing, m: Listing)
    requires UniqueOffers(offers)
    requires l in ExchangeListing(offers, requests, userId) && m in ExchangeListing(offers, requests, userId)
    requires l.course == m.course
    ensures l == m
  {
    var o :| o in offers && o.userId == userId && RequestedGroups(requests, userId, o.course) != [] &&
      l == Listing(o.course, o.messageId, o.groupNr, RequestedGroups(requests, userId, o.course));
    var p :| p in offers && p.userId == userId && RequestedGroups(requests, userId, p.course) != [] &&
      m == Listing(p.course, p.messageId, p.groupNr, RequestedGroups(requests, userId, p.course));
    OfferOfUser(offers, o, p);
  }

  /** Removal is scoped to one (user, course) pair (`REMOVE_GROUP_EXCHANGE_OFFER` and `..._REQUESTS`). */
  predicate OfUserInCourse(userId: int, course: int, u: int, c: int) {
    u == userId && c == course
  }

  function RemoveOffer(offers: seq<GroupOffer>, userId: int, course: int): (r: seq<GroupOffer>)
    ensures forall o :: o in r <==> o in offers && !OfUserInCourse(userId, course, o.userId, o.course)
  {
    Where(offers, (o: GroupOffer) => !OfUserInCourse(userId, course, o.userId, o.course))
  }

  function RemoveRequests(requests: seq<GroupRequest>, userId: int, course: int): (r: seq<GroupRequest>)
    ensures forall q :: q in r <==> q in requests && !OfUserInCourse(userId, course, q.userId, q.course)
  {
    Where(requests, (q: GroupRequest) => !OfUserInCourse(userId, course, q.userId, q.course))
  }

  /** `UPDATE_GROUP_MESSAGE_ID`: every offer of the pair gets the message id, the others are kept. */
  function SetOfferMessage(offers: seq<GroupOffer>, userId: int, course: int, messageId: int): (r: seq<GroupOffer>)
    ensures |r| == |offers|
    ensures forall i :: 0 <= i < |offers| ==>
      r[i] == if OfUserInCourse(userId, course, offers[i].userId, offers[i].course)
              then offers[i].(messageId := Some(messageId)) else offers[i]
  {
    seq(|offers|, i requires 0 <= i < |offers| =>
      if OfUserInCourse(userId, course, offers[i].userId, offers[i].course) then offers[i].(messageId := Some(messageId))
      else offers[i])
  }

  lemma SetOfferMessageKeepsUnique(offers: seq<GroupOffer>, userId: int, course: int, messageId: int)
    requires UniqueOffers(offers)
    ensures UniqueOffers(SetOfferMessage(offers, userId, course, messageId))
  {
  }
}
