/** The time service's handlers over its user collection and its
    reading-time entries. The entries are kept in collection order, so that
    `findOne` is the first match. */
module TimeService {
  import opened Js
  import opened TimeSchema
  import opened TimeFormat

  /** The `timeSpent` field of a request body: a number, or anything else. */
  datatype BodyValue = Num(n: int) | NotNumber

  /** A handler's answer: the status and the formatted time, if any. */
  datatype TimeReply = TimeReply(status: int, timeSpent: Option<string>)

  /** An entry as the listing sends it: every stored field, with the time
      formatted. */
  datatype FormattedEntry = FormattedEntry(id: string, userId: string, bookId: string,
                                           courseId: Option<string>, timeSpent: string)

  const NoRecordText: string := "0m 0s"

  predicate IsPair(e: TimeEntry, userId: string, bookId: string) {
    e.userId == userId && e.bookId == bookId
  }

  /** `findOne({ userId, bookId })`: the position of the first matching entry. */
  function FindFirst(entries: seq<TimeEntry>, userId: string, bookId: string): (r: Option<nat>)
    ensures r.None? ==> forall i :: 0 <= i < |entries| ==> !IsPair(entries[i], userId, bookId)
    ensures r.Some? ==> r.value < |entries| && IsPair(entries[r.value], userId, bookId)
    ensures r.Some? ==> forall i :: 0 <= i < r.value ==> !IsPair(entries[i], userId, bookId)
  {
    if entries == [] then None
    else if IsPair(entries[0], userId, bookId) then Some(0)
    else match FindFirst(entries[1..], userId, bookId)
      case None => None
      case Some(k) => Some(k + 1)
  }

  /** The `$match`/`$group` aggregate: the sum of a user's entries, 0 when
      there are none. */
  function TotalFor(entries: seq<TimeEntry>, userId: string): int {
    if entries == [] then 0
    else (if entries[0].userId == userId then entries[0].timeSpent else 0) + TotalFor(entries[1..], userId)
  }

  /** Adding to one entry adds the same amount to its user's total and
      leaves every other user's total unchanged. */
  lemma {:induction false} TotalForAdd(entries: seq<TimeEntry>, i: nat, amount: int, userId: string)
    requires i < |entries|
    ensures var after := entries[i := entries[i].(timeSpent := entries[i].timeSpent + amount)];
      TotalFor(after, userId) == TotalFor(entries, userId) + (if entries[i].userId == userId then amount else 0)
  {
    var after := entries[i := entries[i].(timeSpent := entries[i].timeSpent + amount)];
    if i == 0 {
      assert after[1..] == entries[1..];
    } else {
      TotalForAdd(entries[1..], i - 1, amount, userId);
      assert after[1..] == entries[1..][i - 1 := entries[i].(timeSpent := entries[i].timeSpent + amount)];
    }
  }

  /** A user with no entries totals 0, which convertTime shows as the empty string. */
  lemma {:induction false} TotalWithoutEntries(entries: seq<TimeEntry>, userId: string)
    requires forall i :: 0 <= i < |entries| ==> entries[i].userId != userId
    ensures TotalFor(entries, userId) == 0
    ensures ConvertTime(TotalFor(entries, userId)) == ""
  {
    if entries != [] {
      TotalWithoutEntries(entries[1..], userId);
    }
    ConvertTimeEmpty(0);
  }

  /** The totals of entries with non-negative times are non-negative. */
  lemma {:induction false} TotalNonNegative(entries: seq<TimeEntry>, userId: string)
    requires forall i :: 0 <= i < |entries| ==> entries[i].timeSpent >= 0
    ensures TotalFor(entries, userId) >= 0
  {
    if entries != [] {
      TotalNonNegative(entries[1..], userId);
    }
  }

  function Format(e: TimeEntry): FormattedEntry {
    FormattedEntry(e.id, e.userId, e.bookId, e.courseId, ConvertTime(e.timeSpent))
  }

  class TimeStore {
    var users: map<string, TimeUser>
    var entries: seq<TimeEntry>

    /** Each user sits under its own id and the unique indexes on the users
        hold. Stored documents are not assumed to pass the current schema,
        and nothing stops two entries for one user and book. */
    ghost predicate Valid()
      reads this
    {
      (forall id :: id in users ==> users[id].id == id) && UniqueUsers(users)
    }

    constructor ()
      ensures Valid() && users == map[] && entries == []
    {
      users := map[];
      entries := [];
    }

    /** `save()` of a new entry: validation, then the insert. */
    method Insert(e: TimeEntry, transportOk: bool) returns (saved: bool)
      requires Valid()
      modifies this
      ensures Valid()
      ensures saved <==> transportOk && ValidEntry(e)
      ensures entries == if saved then old(entries) + [e] else old(entries)
      ensures users == old(users)
    {
      saved := transportOk && ValidEntry(e);
      if saved {
        entries := entries + [e];
      }
    }

    /** `save()` of a loaded entry whose time changed: validation runs again,
        so an entry stored without a required field cannot be saved. */
    method Replace(i: nat, e: TimeEntry, transportOk: bool) returns (saved: bool)
      requires Valid() && i < |entries|
      modifies this
      ensures Valid()
      ensures saved <==> transportOk && ValidEntry(e)
      ensures entries == if saved then old(entries)[i := e] else old(entries)
      ensures users == old(users)
    {
      saved := transportOk && ValidEntry(e);
      if saved {
        entries := entries[i := e];
      }
    }

    /** saveTimeSpent. A value that is not a number, or a negative number,
        is refused with 400 before any lookup. Half the value, rounded down,
        is added to the user's first entry for the book, and the save
        validates the whole entry again; a user that does not exist is 404.
        A new pair gets an entry without a course id, which the schema
        refuses, so the answer is 500. */
    method SaveTimeSpent(userId: string, bookId: string, timeSpent: BodyValue, freshId: string, saveOk: bool)
      returns (r: TimeReply)
      requires Valid()
      modifies this
      ensures Valid()
      ensures users == old(users)
      ensures timeSpent.NotNumber? || timeSpent.n < 0 ==> r == TimeReply(400, None) && entries == old(entries)
      ensures timeSpent.Num? && timeSpent.n >= 0 && userId !in users ==> r == TimeReply(404, None) && entries == old(entries)
      ensures timeSpent.Num? && timeSpent.n >= 0 && userId in users ==>
        var amount := timeSpent.n / 2;
        match old(FindFirst(entries, userId, bookId))
        case None => r == TimeReply(500, None) && entries == old(entries)
        case Some(i) =>
          var e := old(entries[i]).(timeSpent := old(entries[i].timeSpent) + amount);
          if saveOk && ValidEntry(e)
          then r == TimeReply(200, Some(ConvertTime(e.timeSpent))) && entries == old(entries)[i := e]
               && TotalFor(entries, userId) == old(TotalFor(entries, userId)) + amount
          else r == TimeReply(500, None) && entries == old(entries)
      ensures forall other :: other != userId ==> TotalFor(entries, other) == old(TotalFor(entries, other))
    {
      if timeSpent.NotNumber? || timeSpent.n < 0 {
        return TimeReply(400, None);
      }
      var amount := FloorDiv(timeSpent.n, 2);
      if userId !in users {
        return TimeReply(404, None);
      }
      var found := FindFirst(entries, userId, bookId);
      if found.Some? {
        var i := found.value;
        var userTime := entries[i].(timeSpent := entries[i].timeSpent + amount);
        TotalForAdd(entries, i, amount, userId);
        forall other | other != userId
          ensures TotalFor(entries[i := userTime], other) == TotalFor(entries, other)
        {
          TotalForAdd(entries, i, amount, other);
        }
        var saved := Replace(i, userTime, saveOk);
        if !saved {
          return TimeReply(500, None);
        }
        return TimeReply(200, Some(ConvertTime(userTime.timeSpent)));
      }
      var userTime := NewTimeEntry(freshId, userId, bookId, None, Some(amount));
      var saved := Insert(userTime, saveOk);
      if !saved {
        return TimeReply(500, None);
      }
      return TimeReply(200, Some(ConvertTime(userTime.timeSpent)));
    }

    /** getTimeSpentByUserAndBook: 404 for an unknown user; the formatted
        time of the user's entry for the book; or the placeholder `0m 0s`,
        which no stored time formats to, when there is no entry. */
    function GetTimeSpentByUserAndBook(userId: string, bookId: string): (r: TimeReply)
      reads this
      ensures userId !in users <==> r == TimeReply(404, None)
      ensures userId in users ==> r.status == 200 && r.timeSpent.Some?
      ensures userId in users ==>
        (r.timeSpent == Some(NoRecordText) <==> FindFirst(entries, userId, bookId).None?)
      ensures userId in users && FindFirst(entries, userId, bookId).Some? ==>
        r.timeSpent == Some(ConvertTime(entries[FindFirst(entries, userId, bookId).value].timeSpent))
    {
      if userId !in users then TimeReply(404, None)
      else match FindFirst(entries, userId, bookId)
        case None => TimeReply(200, Some(NoRecordText))
        case Some(i) =>
          ConvertTimeNeverZeroPlaceholder(entries[i].timeSpent);
          TimeReply(200, Some(ConvertTime(entries[i].timeSpent)))
    }

    /** getAllTimeSpent: every entry, in order, with all its fields and its
        time formatted. */
    function GetAllTimeSpent(): (r: seq<FormattedEntry>)
      reads this
      ensures |r| == |entries|
      ensures forall i :: 0 <= i < |r| ==>
        r[i].id == entries[i].id && r[i].userId == entries[i].userId && r[i].bookId == entries[i].bookId
        && r[i].courseId == entries[i].courseId && r[i].timeSpent == ConvertTime(entries[i].timeSpent)
    {
      seq(|entries|, i requires 0 <= i < |entries| reads this => Format(entries[i]))
    }

    /** getTotalTimeSpentByUser: 404 for an unknown user, otherwise the
        formatted sum of the user's entries. */
    function GetTotalTimeSpentByUser(userId: string): (r: TimeReply)
      reads this
      ensures userId !in users ==> r == TimeReply(404, None)
      ensures userId in users ==> r == TimeReply(200, Some(ConvertTime(TotalFor(entries, userId))))
    {
      if userId !in users then TimeReply(404, None)
      else TimeReply(200, Some(ConvertTime(TotalFor(entries, userId))))
    }
  }
}
