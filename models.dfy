/** The records of the polling app: Poll, Option and Vote rows and the three
    tables that hold them, keyed by their auto-increment primary keys. */
module Models {

  type PollId = int
  type OptionId = int
  type VoteId = int

  /** Widths of the CharField columns. */
  const QuestionMaxLength := 200
  const OptionTextMaxLength := 100
  const VoterIdMaxLength := 40

  /** A poll; `created_at` is left out and times are integers chosen by the caller. */
  datatype Poll = Poll(question: string, expiresAt: int)

  /** An option: the poll that owns it (the foreign key whose reverse name is
      `options`), its text and its vote counter. */
  datatype Option = Option(poll: PollId, text: string, votes: int)

  /** A vote row; `voted_at` is left out. The pair (option, voterId) is the
      row's uniqueness key, so two rows are the same vote exactly when they are
      equal as values. */
  datatype Vote = Vote(option: OptionId, voterId: string)

  /** The three tables and the key each one hands out next. */
  datatype Db = Db(
    polls: map<PollId, Poll>,
    options: map<OptionId, Option>,
    votes: map<VoteId, Vote>,
    nextPollId: int,
    nextOptionId: int,
    nextVoteId: int)

  predicate PollsValid(db: Db)
  {
    forall p :: p in db.polls ==>
      1 <= p < db.nextPollId && |db.polls[p].question| <= QuestionMaxLength
  }

  /** Every option belongs to an existing poll, fits its column and has a
      non-negative counter. */
  predicate OptionsValid(db: Db)
  {
    forall o :: o in db.options ==>
      && 1 <= o < db.nextOptionId
      && db.options[o].poll in db.polls
      && |db.options[o].text| <= OptionTextMaxLength
      && db.options[o].votes >= 0
  }

  /** Every vote refers to an existing option and fits its column. */
  predicate VotesValid(db: Db)
  {
    forall v :: v in db.votes ==>
      && 1 <= v < db.nextVoteId
      && db.votes[v].option in db.options
      && |db.votes[v].voterId| <= VoterIdMaxLength
  }

  /** The unique_together constraint on (option, voter_id). */
  predicate UniqueVotes(votes: map<VoteId, Vote>)
  {
    forall v, w :: v in votes && w in votes && votes[v] == votes[w] ==> v == w
  }

  /** The store invariant: key bounds, column widths, referential integrity
      and vote uniqueness. */
  predicate Valid(db: Db)
  {
    && 1 <= db.nextPollId && 1 <= db.nextOptionId && 1 <= db.nextVoteId
    && PollsValid(db) && OptionsValid(db) && VotesValid(db)
    && UniqueVotes(db.votes)
  }

  /** The options of a poll (`poll.options`): those whose foreign key names it. */
  function OptionsOf(db: Db, p: PollId): set<OptionId>
  {
    set o | o in db.options && db.options[o].poll == p
  }

  /** The keys of the vote rows that refer to option `o`. */
  function VoteRecords(db: Db, o: OptionId): set<VoteId>
  {
    set v | v in db.votes && db.votes[v].option == o
  }

  function VoteCount(db: Db, o: OptionId): nat
  {
    |VoteRecords(db, o)|
  }

  /** The (option, voterId) pairs present in the vote table. */
  function VotePairs(votes: map<VoteId, Vote>): set<Vote>
  {
    set v | v in votes :: votes[v]
  }

  /** Whether the voter already has a vote row for the option. */
  predicate HasVote(db: Db, o: OptionId, voterId: string)
  {
    Vote(o, voterId) in VotePairs(db.votes)
  }

  /** What the denormalised counters are meant to be: each option's counter
      equals the number of vote rows for it. The vote path does not keep this
      (see Views.RepeatedVoteBreaksTally). */
  predicate TallyConsistent(db: Db)
  {
    forall o :: o in db.options ==> db.options[o].votes == VoteCount(db, o)
  }

  function EmptyDb(): (db: Db)
    ensures Valid(db) && TallyConsistent(db)
    ensures db.polls == map[] && db.options == map[] && db.votes == map[]
  {
    Db(map[], map[], map[], 1, 1, 1)
  }

  /** `Poll.objects.create(question=..., expires_at=...)`. */
  function AddPoll(db: Db, question: string, expiresAt: int): (r: (Db, PollId))
    requires Valid(db) && |question| <= QuestionMaxLength
    ensures Valid(r.0)
    ensures r.1 !in db.polls && r.0.polls == db.polls[r.1 := Poll(question, expiresAt)]
    ensures r.0.options == db.options && r.0.votes == db.votes
    ensures OptionsOf(r.0, r.1) == {}
    ensures TallyConsistent(db) ==> TallyConsistent(r.0)
  {
    var id := db.nextPollId;
    assert forall o :: o in db.options ==> db.options[o].poll != id;
    (db.(polls := db.polls[id := Poll(question, expiresAt)], nextPollId := id + 1), id)
  }

  /** `Option.objects.create(poll=..., text=...)`: the counter takes its
      default, 0. */
  function AddOption(db: Db, p: PollId, text: string): (r: (Db, OptionId))
    requires Valid(db) && p in db.polls && |text| <= OptionTextMaxLength
    ensures Valid(r.0)
    ensures r.1 !in db.options && r.0.options == db.options[r.1 := Option(p, text, 0)]
    ensures r.0.options[r.1].votes == 0 && VoteCount(r.0, r.1) == 0
    ensures r.0.polls == db.polls && r.0.votes == db.votes
    ensures OptionsOf(r.0, p) == OptionsOf(db, p) + {r.1}
    ensures forall q :: q != p ==> OptionsOf(r.0, q) == OptionsOf(db, q)
    ensures TallyConsistent(db) ==> TallyConsistent(r.0)
  {
    var id := db.nextOptionId;
    var db' := db.(options := db.options[id := Option(p, text, 0)], nextOptionId := id + 1);
    assert forall v :: v in db.votes ==> db.votes[v].option != id;
    assert VoteRecords(db', id) == {};
    assert forall o :: o in db.options ==> VoteRecords(db', o) == VoteRecords(db, o);
    (db', id)
  }

  /** `Vote.objects.update_or_create(option=..., voter_id=..., defaults={})`:
      a row with these fields is left as it is (there are no defaults to
      write); otherwise a row is inserted under the next key. */
  function UpdateOrCreate(db: Db, vote: Vote): (r: Db)
    requires Valid(db) && vote.option in db.options && |vote.voterId| <= VoterIdMaxLength
    ensures Valid(r)
    ensures r.polls == db.polls && r.options == db.options
    ensures HasVote(r, vote.option, vote.voterId)
    ensures VotePairs(r.votes) == VotePairs(db.votes) + {vote}
    ensures forall v :: v in db.votes ==> v in r.votes && r.votes[v] == db.votes[v]
    ensures |r.votes| == if vote in VotePairs(db.votes) then |db.votes| else |db.votes| + 1
  {
    if vote in VotePairs(db.votes) then db
    else
      var id := db.nextVoteId;
      var r := db.(votes := db.votes[id := vote], nextVoteId := id + 1);
      assert VotePairs(r.votes) == VotePairs(db.votes) + {vote} by {
        forall x | x in VotePairs(r.votes) ensures x in VotePairs(db.votes) + {vote} {
          var k :| k in r.votes && r.votes[k] == x;
          if k != id { assert db.votes[k] == x; }
        }
        forall x | x in VotePairs(db.votes) ensures x in VotePairs(r.votes) {
          var k :| k in db.votes && db.votes[k] == x;
          assert r.votes[k] == x;
        }
        assert r.votes[id] == vote;
      }
      r
  }

  /** Growth of the per-option vote counts under UpdateOrCreate: only the
      voted option can gain a row, and it does exactly when the vote is new. */
  lemma VoteCountAfterUpdateOrCreate(db: Db, vote: Vote, o: OptionId)
    requires Valid(db) && vote.option in db.options && |vote.voterId| <= VoterIdMaxLength
    ensures VoteCount(UpdateOrCreate(db, vote), o) ==
      if o == vote.option && vote !in VotePairs(db.votes) then VoteCount(db, o) + 1 else VoteCount(db, o)
  {
    var r := UpdateOrCreate(db, vote);
    if vote !in VotePairs(db.votes) {
      var id := db.nextVoteId;
      assert id !in db.votes;
      if o == vote.option {
        assert VoteRecords(r, o) == VoteRecords(db, o) + {id};
      } else {
        assert VoteRecords(r, o) == VoteRecords(db, o);
      }
    }
  }

  /** Under the uniqueness constraint the vote table is a set keyed by the pair:
      it has as many rows as distinct (option, voterId) pairs. */
  lemma {:induction false} VotesAreASet(votes: map<VoteId, Vote>)
    requires UniqueVotes(votes)
    ensures |VotePairs(votes)| == |votes|
    decreases |votes|
  {
    if votes != map[] {
      // A non-empty map has a key; this step lets the verifier pick one.
      if forall v :: v !in votes { assert false; }
      var k :| k in votes;
      var rest := votes - {k};
      assert |rest| == |votes| - 1 by {
        assert rest.Keys == votes.Keys - {k};
      }
      VotesAreASet(rest);
      forall x | x in VotePairs(votes) ensures x in VotePairs(rest) + {votes[k]} {
        var j :| j in votes && votes[j] == x;
        if j != k { assert rest[j] == x; }
      }
      forall x | x in VotePairs(rest) ensures x in VotePairs(votes) {
        var j :| j in rest && rest[j] == x;
        assert votes[j] == x;
      }
      assert VotePairs(votes) == VotePairs(rest) + {votes[k]};
      assert votes[k] !in VotePairs(rest);
    }
  }

  /** Each option belongs to exactly one poll, and it is among that poll's
      options and no other's. This only exposes OptionsValid and the definition
      of OptionsOf; that the operations keep Valid is in their contracts. */
  lemma OptionBelongsToOnePoll(db: Db, o: OptionId)
    requires Valid(db) && o in db.options
    ensures db.options[o].poll in db.polls && o in OptionsOf(db, db.options[o].poll)
    ensures forall p :: o in OptionsOf(db, p) ==> p == db.options[o].poll
  {
  }

  /** Every vote row refers to an option whose poll exists. This only exposes
      VotesValid and OptionsValid; that the operations keep Valid is in their
      contracts. */
  lemma VoteReferencesOption(db: Db, v: VoteId)
    requires Valid(db) && v in db.votes
    ensures db.votes[v].option in db.options
    ensures db.options[db.votes[v].option].poll in db.polls
    ensures |db.votes[v].voterId| <= VoterIdMaxLength
  {
  }
}
