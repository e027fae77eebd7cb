/** The two views of the polling API that hold logic: casting a vote
    (VoteCreate.post) and reading a poll's results (PollResults.get), as
    functions of the store's tables. The class in module Storage runs the
    vote path step by step and is proved against CastVote below. */
module Views {
  import opened Models

  datatype Error = NotFound | Expired

  /** What a vote request comes to: recorded, or rejected with a reason. */
  datatype Outcome = Recorded | Rejected(error: Error)

  datatype Result<T> = Ok(value: T) | Err(error: Error)

  /** The expiry test of the vote path. It is strict: at the expiry instant
      itself the poll still takes votes. */
  predicate HasExpired(poll: Poll, now: int)
  {
    poll.expiresAt < now
  }

  /** VoteCreate.post with a validated `option_id` and `voter_id` and the
      current time `now`. A missing option is NotFound; an expired poll is
      Expired; otherwise the (option, voterId) row is updated or created and
      the option's counter goes up by one, whether or not the row was new.
      The source also passes `voter=user` to update_or_create. Vote has no
      `voter` field, so as written Django rejects that lookup with FieldError
      before the counter is touched. This function describes the call with
      the keyword removed, keyed on (option, voter_id) alone. */
  function CastVote(db: Db, optionId: OptionId, voterId: string, now: int): (r: (Outcome, Db))
    requires Valid(db) && |voterId| <= VoterIdMaxLength
    ensures Valid(r.1)
    ensures r.1.polls == db.polls && r.1.options.Keys == db.options.Keys
    ensures r.1.nextOptionId == db.nextOptionId
    ensures r.0 == Rejected(NotFound) <==> optionId !in db.options
    ensures r.0.Rejected? ==> r.1 == db
    ensures r.0 == Recorded ==>
      && HasVote(r.1, optionId, voterId)
      && VotePairs(r.1.votes) == VotePairs(db.votes) + {Vote(optionId, voterId)}
      && |db.votes| <= |r.1.votes| <= |db.votes| + 1
      && optionId in db.options
      && r.1.options[optionId].votes == db.options[optionId].votes + 1
      && r.1.options[optionId].poll == db.options[optionId].poll
      && r.1.options[optionId].text == db.options[optionId].text
    ensures forall o :: o in db.options && o != optionId ==> r.1.options[o] == db.options[o]
  {
    if optionId !in db.options then (Rejected(NotFound), db)
    else
      var option := db.options[optionId];
      if HasExpired(db.polls[option.poll], now) then (Rejected(Expired), db)
      else
        var db1 := UpdateOrCreate(db, Vote(optionId, voterId));
        (Recorded, db1.(options := db1.options[optionId := option.(votes := option.votes + 1)]))
  }

  /** A vote is turned away as Expired exactly when its option exists and the
      option's poll expired strictly before `now`. */
  lemma ExpiredIff(db: Db, optionId: OptionId, voterId: string, now: int)
    requires Valid(db) && |voterId| <= VoterIdMaxLength
    ensures CastVote(db, optionId, voterId, now).0 == Rejected(Expired) <==>
      optionId in db.options && db.polls[db.options[optionId].poll].expiresAt < now
  {
  }

  /** A vote is recorded exactly when its option exists and `now` is not past
      the poll's expiry; in particular a vote cast at the expiry instant is
      recorded. */
  lemma RecordedIff(db: Db, optionId: OptionId, voterId: string, now: int)
    requires Valid(db) && |voterId| <= VoterIdMaxLength
    ensures CastVote(db, optionId, voterId, now).0 == Recorded <==>
      optionId in db.options && now <= db.polls[db.options[optionId].poll].expiresAt
  {
  }

  /** Casting the same vote twice: the second call is recorded too, leaves the
      vote table as it was, and still raises the counter. */
  lemma RepeatedVote(db: Db, optionId: OptionId, voterId: string, now: int)
    requires Valid(db) && |voterId| <= VoterIdMaxLength
    requires CastVote(db, optionId, voterId, now).0 == Recorded
    ensures var db1 := CastVote(db, optionId, voterId, now).1;
      var (outcome, db2) := CastVote(db1, optionId, voterId, now);
      && outcome == Recorded
      && db2.votes == db1.votes
      && VoteCount(db2, optionId) == VoteCount(db1, optionId)
      && db2.options[optionId].votes == db1.options[optionId].votes + 1
  {
  }

  /** On a store whose counters agree with its vote rows, a recorded vote keeps
      them in agreement if and only if the voter had not voted for that option
      before. */
  lemma TallyKeptIffNewVote(db: Db, optionId: OptionId, voterId: string, now: int)
    requires Valid(db) && |voterId| <= VoterIdMaxLength && TallyConsistent(db)
    requires CastVote(db, optionId, voterId, now).0 == Recorded
    ensures TallyConsistent(CastVote(db, optionId, voterId, now).1) <==> !HasVote(db, optionId, voterId)
  {
    var vote := Vote(optionId, voterId);
    var db1 := UpdateOrCreate(db, vote);
    var r := CastVote(db, optionId, voterId, now).1;
    forall o ensures VoteCount(r, o) == VoteCount(db1, o) {
      assert VoteRecords(r, o) == VoteRecords(db1, o);
    }
    if HasVote(db, optionId, voterId) {
      VoteCountAfterUpdateOrCreate(db, vote, optionId);
      assert r.options[optionId].votes != VoteCount(r, optionId);
    } else {
      forall o | o in r.options ensures r.options[o].votes == VoteCount(r, o) {
        VoteCountAfterUpdateOrCreate(db, vote, o);
      }
    }
  }

  /** The counters are not kept equal to the vote rows: there is a consistent
      store (one poll, one option, one vote by "alice") on which one more
      recorded vote, the same again, leaves them unequal. */
  lemma RepeatedVoteBreaksTally()
    ensures exists db: Db, optionId: OptionId, voterId: string, now: int ::
      && Valid(db) && |voterId| <= VoterIdMaxLength && TallyConsistent(db)
      && CastVote(db, optionId, voterId, now).0 == Recorded
      && !TallyConsistent(CastVote(db, optionId, voterId, now).1)
  {
    var (db0, p) := AddPoll(EmptyDb(), "Best language?", 100);
    var (db1, o) := AddOption(db0, p, "Go");
    assert VotePairs(db1.votes) == {};
    RecordedIff(db1, o, "alice", 100);
    TallyKeptIffNewVote(db1, o, "alice", 100);
    var db2 := CastVote(db1, o, "alice", 100).1;
    RecordedIff(db2, o, "alice", 100);
    TallyKeptIffNewVote(db2, o, "alice", 100);
  }

  /** One row of the results response. */
  datatype Entry = Entry(optionId: OptionId, text: string, votes: int)

  function EntryOf(db: Db, o: OptionId): Entry
    requires o in db.options
  {
    Entry(o, db.options[o].text, db.options[o].votes)
  }

  /** Every entry of `rs` is an option of poll `p` with key at least `lo`,
      carrying that option's current text and counter. */
  predicate EntriesAreOptions(db: Db, p: PollId, rs: seq<Entry>, lo: int)
  {
    forall k :: 0 <= k < |rs| ==>
      rs[k].optionId in OptionsOf(db, p) && lo <= rs[k].optionId && rs[k] == EntryOf(db, rs[k].optionId)
  }

  /** Every option of poll `p` with key at least `lo` has an entry in `rs`. */
  predicate CoversOptions(db: Db, p: PollId, rs: seq<Entry>, lo: int)
  {
    forall o :: o in OptionsOf(db, p) && lo <= o ==> exists k :: 0 <= k < |rs| && rs[k].optionId == o
  }

  /** The entries are in strictly increasing key order, so none is repeated. */
  predicate IncreasingKeys(rs: seq<Entry>)
  {
    forall j, k :: 0 <= j < k < |rs| ==> rs[j].optionId < rs[k].optionId
  }

  /** The list comprehension over `poll.options.all()`, visiting option keys
      from `lo` upward, which is the order the options were created in. */
  function ResultsFrom(db: Db, p: PollId, lo: int): seq<Entry>
    decreases db.nextOptionId - lo
  {
    if lo >= db.nextOptionId then []
    else if lo in OptionsOf(db, p) then [EntryOf(db, lo)] + ResultsFrom(db, p, lo + 1)
    else ResultsFrom(db, p, lo + 1)
  }

  lemma {:induction false} ResultsFromSound(db: Db, p: PollId, lo: int)
    ensures EntriesAreOptions(db, p, ResultsFrom(db, p, lo), lo)
    decreases db.nextOptionId - lo
  {
    if lo < db.nextOptionId {
      ResultsFromSound(db, p, lo + 1);
    }
  }

  lemma {:induction false} ResultsFromComplete(db: Db, p: PollId, lo: int)
    requires Valid(db)
    ensures CoversOptions(db, p, ResultsFrom(db, p, lo), lo)
    decreases db.nextOptionId - lo
  {
    var rs := ResultsFrom(db, p, lo);
    if lo < db.nextOptionId {
      ResultsFromComplete(db, p, lo + 1);
      var rest := ResultsFrom(db, p, lo + 1);
      if lo in OptionsOf(db, p) {
        assert rs == [EntryOf(db, lo)] + rest;
        forall o | o in OptionsOf(db, p) && lo <= o ensures exists k :: 0 <= k < |rs| && rs[k].optionId == o {
          if o == lo {
            assert rs[0].optionId == o;
          } else {
            var k :| 0 <= k < |rest| && rest[k].optionId == o;
            assert rs[k + 1].optionId == o;
          }
        }
      }
    }
  }

  lemma {:induction false} ResultsFromIncreasing(db: Db, p: PollId, lo: int)
    ensures IncreasingKeys(ResultsFrom(db, p, lo))
    decreases db.nextOptionId - lo
  {
    if lo < db.nextOptionId {
      ResultsFromIncreasing(db, p, lo + 1);
      ResultsFromSound(db, p, lo + 1);
    }
  }

  /** The comprehension from key `lo` upward lists the options of poll `p`
      with key at least `lo`: one entry per option, in increasing key order,
      each with the option's current text and counter. */
  lemma ResultsFromListsOptions(db: Db, p: PollId, lo: int)
    requires Valid(db)
    ensures var rs := ResultsFrom(db, p, lo);
      EntriesAreOptions(db, p, rs, lo) && CoversOptions(db, p, rs, lo) && IncreasingKeys(rs)
  {
    ResultsFromSound(db, p, lo);
    ResultsFromComplete(db, p, lo);
    ResultsFromIncreasing(db, p, lo);
  }

  /** PollResults.get: NotFound for a missing poll, otherwise one entry per
      option of the poll, each with that option's key, text and counter. */
  function Results(db: Db, p: PollId): (r: Result<seq<Entry>>)
    requires Valid(db)
    ensures r.Err? <==> p !in db.polls
    ensures r.Err? ==> r.error == NotFound
    ensures r.Ok? ==> forall k :: 0 <= k < |r.value| ==>
      r.value[k].optionId in OptionsOf(db, p) && r.value[k] == EntryOf(db, r.value[k].optionId)
    ensures r.Ok? ==> forall o :: o in OptionsOf(db, p) ==>
      exists k :: 0 <= k < |r.value| && r.value[k].optionId == o
    ensures r.Ok? ==> forall j, k :: 0 <= j < k < |r.value| ==> r.value[j].optionId < r.value[k].optionId
  {
    if p !in db.polls then Err(NotFound)
    else
      ResultsFromListsOptions(db, p, 1);
      Ok(ResultsFrom(db, p, 1))
  }

  /** Two stores whose options differ only in option `o`'s counter, which is one
      higher in `db'`, give the same result rows but for that counter. */
  lemma {:induction false} ResultsFromAfterIncrement(db: Db, db': Db, o: OptionId, p: PollId, lo: int)
    requires db'.nextOptionId == db.nextOptionId && db'.options.Keys == db.options.Keys
    requires o in db.options && db'.options[o] == db.options[o].(votes := db.options[o].votes + 1)
    requires forall x :: x in db.options && x != o ==> db'.options[x] == db.options[x]
    ensures var rs, rs' := ResultsFrom(db, p, lo), ResultsFrom(db', p, lo);
      |rs'| == |rs| &&
      forall k :: 0 <= k < |rs| ==>
        rs'[k] == if rs[k].optionId == o then rs[k].(votes := rs[k].votes + 1) else rs[k]
    decreases db.nextOptionId - lo
  {
    if lo < db.nextOptionId {
      ResultsFromAfterIncrement(db, db', o, p, lo + 1);
      assert lo in OptionsOf(db, p) <==> lo in OptionsOf(db', p);
    }
  }

  /** After a recorded vote the results of every poll show the same options in
      the same order, with the voted option's counter one higher. */
  lemma ResultsAfterVote(db: Db, optionId: OptionId, voterId: string, now: int, p: PollId)
    requires Valid(db) && |voterId| <= VoterIdMaxLength && p in db.polls
    requires CastVote(db, optionId, voterId, now).0 == Recorded
    ensures var before := Results(db, p).value;
      var after := Results(CastVote(db, optionId, voterId, now).1, p).value;
      |after| == |before| &&
      forall k :: 0 <= k < |before| ==>
        after[k] == if before[k].optionId == optionId then before[k].(votes := before[k].votes + 1) else before[k]
  {
    var db' := CastVote(db, optionId, voterId, now).1;
    ResultsFromAfterIncrement(db, db', optionId, p, 1);
  }
}
