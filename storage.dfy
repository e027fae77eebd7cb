/** The store the views work on: the Poll, Option and Vote tables as fields
    that the vote path updates in place, one call at a time. */
module Storage {
  import opened Models
  import Views

  class Store {
    var polls: map<PollId, Poll>
    var options: map<OptionId, Option>
    var votes: map<VoteId, Vote>
    var nextPollId: int
    var nextOptionId: int
    var nextVoteId: int

    /** The tables as a value, for the specifications in Models and Views. */
    function Snapshot(): Db
      reads this
    {
      Db(polls, options, votes, nextPollId, nextOptionId, nextVoteId)
    }

    predicate Valid()
      reads this
    {
      Models.Valid(Snapshot())
    }

    constructor ()
      ensures Valid() && Snapshot() == EmptyDb()
    {
      polls, options, votes := map[], map[], map[];
      nextPollId, nextOptionId, nextVoteId := 1, 1, 1;
    }

    /** Inserts a poll row under the next key. */
    method CreatePoll(question: string, expiresAt: int) returns (id: PollId)
      requires Valid() && |question| <= QuestionMaxLength
      modifies this
      ensures Valid()
      ensures (Snapshot(), id) == AddPoll(old(Snapshot()), question, expiresAt)
    {
      id := nextPollId;
      polls := polls[id := Poll(question, expiresAt)];
      nextPollId := nextPollId + 1;
    }

    /** Inserts an option row of poll `p` under the next key; its counter
        starts at 0. */
    method CreateOption(p: PollId, text: string) returns (id: OptionId)
      requires Valid() && p in polls && |text| <= OptionTextMaxLength
      modifies this
      ensures Valid()
      ensures (Snapshot(), id) == AddOption(old(Snapshot()), p, text)
      ensures options[id].votes == 0
    {
      id := nextOptionId;
      options := options[id := Option(p, text, 0)];
      nextOptionId := nextOptionId + 1;
    }

    /** VoteCreate.post: look the option up, test its poll's expiry, update or
        create the vote row, then add one to the option's counter and save it. */
    method CastVote(optionId: OptionId, voterId: string, now: int) returns (outcome: Views.Outcome)
      requires Valid() && |voterId| <= VoterIdMaxLength
      modifies this
      ensures Valid()
      ensures (outcome, Snapshot()) == Views.CastVote(old(Snapshot()), optionId, voterId, now)
      ensures polls == old(polls)
      ensures outcome.Rejected? ==> unchanged(this)
      ensures outcome == Views.Recorded ==>
        && Vote(optionId, voterId) in VotePairs(votes)
        && options[optionId].votes == old(options[optionId].votes) + 1
        && forall o :: o in old(options) && o != optionId ==> o in options && options[o] == old(options[o])
    {
      if optionId !in options {
        return Views.Rejected(Views.NotFound);
      }
      var option := options[optionId];
      var poll := polls[option.poll];
      if poll.expiresAt < now {
        return Views.Rejected(Views.Expired);
      }
      // update_or_create keyed on (option, voter_id). The source also passes
      // `voter=user`, which names no field of Vote; as written Django raises
      // FieldError here. The call is modelled without that keyword.
      var vote := Vote(optionId, voterId);
      if vote !in VotePairs(votes) {
        votes := votes[nextVoteId := vote];
        nextVoteId := nextVoteId + 1;
      }
      option := option.(votes := option.votes + 1);
      options := options[optionId := option];
      outcome := Views.Recorded;
    }
  }

  /** The same voter votes for the same option twice on a fresh store: both
      calls are recorded, the option's counter reaches 2 but there is one
      vote row for it. */
  method RepeatVoteScenario() returns (counter: int, rows: nat)
    ensures counter == 2 && rows == 1
  {
    var store := new Store();
    var p := store.CreatePoll("Best language?", 100);
    var o := store.CreateOption(p, "Go");
    ghost var db1 := store.Snapshot();
    assert VotePairs(db1.votes) == {};
    Views.RecordedIff(db1, o, "alice", 100);
    Views.TallyKeptIffNewVote(db1, o, "alice", 100);
    var first := store.CastVote(o, "alice", 100);
    Views.RepeatedVote(db1, o, "alice", 100);
    var second := store.CastVote(o, "alice", 100);
    counter, rows := store.options[o].votes, VoteCount(store.Snapshot(), o);
  }
}
