/**
 The vote-once screen of the DJ queue: a list of track options with vote
 counts, and a two-field state (`hasVoted`, `selectedVote`) that lets the
 listener cast a single vote.
 */
module DJVoting {
  import opened Wrappers

  /** One votable track; `votes` is the count shown next to it. */
  datatype VoteOption = VoteOption(id: int, title: string, artist: string, votes: nat)

  /** The component's state: the three `useState` cells. */
  datatype VotingScreen = VotingScreen(hasVoted: bool, selectedVote: Option<int>, options: seq<VoteOption>)

  /** The state a fresh screen starts from: nothing voted, options as given. */
  function Start(options: seq<VoteOption>): VotingScreen
  {
    VotingScreen(false, None, options)
  }

  /** Sum of the counts of all options (the reduce starting at 0). */
  function TotalVotes(options: seq<VoteOption>): nat
  {
    if |options| == 0 then 0 else options[0].votes + TotalVotes(options[1..])
  }

  /** The total is 0 exactly when no option holds a vote. */
  lemma {:induction false} TotalZeroIff(options: seq<VoteOption>)
    ensures TotalVotes(options) == 0 <==> forall k :: 0 <= k < |options| ==> options[k].votes == 0
  {
    if |options| > 0 {
      TotalZeroIff(options[1..]);
      assert forall k :: 1 <= k < |options| ==> options[k] == options[1..][k - 1];
    }
  }

  /** Number of options carrying the id `optionId`. */
  function CountId(options: seq<VoteOption>, optionId: int): nat
  {
    if |options| == 0 then 0
    else (if options[0].id == optionId then 1 else 0) + CountId(options[1..], optionId)
  }

  /** No two options share an id. */
  predicate UniqueIds(options: seq<VoteOption>)
  {
    forall i, j :: 0 <= i < j < |options| ==> options[i].id != options[j].id
  }

  /** Some option carries the id `optionId`. */
  predicate HasId(options: seq<VoteOption>, optionId: int)
  {
    exists i :: 0 <= i < |options| && options[i].id == optionId
  }

  /**
   The map applied by a vote: every option whose id matches gets one more
   vote, with its other fields kept; every other option is kept as is.
   */
  function Tally(options: seq<VoteOption>, optionId: int): (r: seq<VoteOption>)
    ensures |r| == |options|
    ensures forall i :: 0 <= i < |r| ==>
      && r[i].id == options[i].id
      && r[i].title == options[i].title
      && r[i].artist == options[i].artist
      && r[i].votes == if options[i].id == optionId then options[i].votes + 1 else options[i].votes
  {
    if |options| == 0 then []
    else
      var head := if options[0].id == optionId then options[0].(votes := options[0].votes + 1) else options[0];
      [head] + Tally(options[1..], optionId)
  }

  /**
   A click on the option `optionId`. Once a vote has been cast the click is
   ignored; otherwise the vote is tallied, remembered and consumed, whether or
   not an option with that id exists.
   */
  function HandleVote(s: VotingScreen, optionId: int): (r: VotingScreen)
    ensures s.hasVoted ==> r == s
    ensures !s.hasVoted ==> r.hasVoted && r.selectedVote == Some(optionId)
    ensures |r.options| == |s.options|
    ensures !s.hasVoted ==> TotalVotes(r.options) == TotalVotes(s.options) + CountId(s.options, optionId)
  {
    if s.hasVoted then s
    else
      TallyTotal(s.options, optionId);
      VotingScreen(true, Some(optionId), Tally(s.options, optionId))
  }

  /** Tallying adds one vote per matching option to the total. */
  lemma {:induction false} TallyTotal(options: seq<VoteOption>, optionId: int)
    ensures TotalVotes(Tally(options, optionId)) == TotalVotes(options) + CountId(options, optionId)
  {
    if |options| > 0 {
      TallyTotal(options[1..], optionId);
      assert Tally(options, optionId)[1..] == Tally(options[1..], optionId);
    }
  }

  /** With unique ids, an id occurs once when present and never when absent. */
  lemma {:induction false} CountIdUnique(options: seq<VoteOption>, optionId: int)
    requires UniqueIds(options)
    ensures CountId(options, optionId) == if HasId(options, optionId) then 1 else 0
  {
    if |options| > 0 {
      var rest := options[1..];
      assert UniqueIds(rest) by {
        forall i, j | 0 <= i < j < |rest| ensures rest[i].id != rest[j].id {
          assert rest[i] == options[i + 1] && rest[j] == options[j + 1];
        }
      }
      CountIdUnique(rest, optionId);
      if options[0].id == optionId {
        assert !HasId(rest, optionId) by {
          forall i | 0 <= i < |rest| ensures rest[i].id != optionId {
            assert rest[i] == options[i + 1];
          }
        }
      } else {
        if HasId(options, optionId) {
          var i :| 0 <= i < |options| && options[i].id == optionId;
          assert rest[i - 1] == options[i];
        }
        if HasId(rest, optionId) {
          var i :| 0 <= i < |rest| && rest[i].id == optionId;
          assert options[i + 1] == rest[i];
        }
      }
    }
  }

  /** A count never exceeds the total it is part of. */
  lemma {:induction false} VotesAtMostTotal(options: seq<VoteOption>, k: int)
    requires 0 <= k < |options|
    ensures options[k].votes <= TotalVotes(options)
  {
    if k > 0 {
      VotesAtMostTotal(options[1..], k - 1);
    }
  }

  /**
   A first vote for a present id (ids unique): that option gains exactly one
   vote, every other option is unchanged, and the total rises by exactly one.
   */
  lemma VoteForPresentId(s: VotingScreen, optionId: int, k: int)
    requires !s.hasVoted && UniqueIds(s.options)
    requires 0 <= k < |s.options| && s.options[k].id == optionId
    ensures var r := HandleVote(s, optionId);
      && r.options[k] == s.options[k].(votes := s.options[k].votes + 1)
      && (forall i :: 0 <= i < |s.options| && i != k ==> r.options[i] == s.options[i])
      && TotalVotes(r.options) == TotalVotes(s.options) + 1
      && r.hasVoted && r.selectedVote == Some(optionId)
  {
    CountIdUnique(s.options, optionId);
  }

  /** A first vote for an absent id counts nothing but still uses up the vote. */
  lemma VoteForAbsentId(s: VotingScreen, optionId: int)
    requires !s.hasVoted && !HasId(s.options, optionId)
    ensures HandleVote(s, optionId) == VotingScreen(true, Some(optionId), s.options)
  {
    var r := Tally(s.options, optionId);
    assert forall i :: 0 <= i < |r| ==> r[i] == s.options[i];
  }

  /** A second click, on any option, changes nothing. */
  lemma VoteOnlyOnce(s: VotingScreen, first: int, second: int)
    ensures HandleVote(HandleVote(s, first), second) == HandleVote(s, first)
  {
  }

  /** The screen after a run of clicks, in order. */
  function Clicks(s: VotingScreen, optionIds: seq<int>): VotingScreen
    decreases |optionIds|
  {
    if |optionIds| == 0 then s else Clicks(HandleVote(s, optionIds[0]), optionIds[1..])
  }

  /** Of any run of clicks only the first one can take effect. */
  lemma {:induction false} OnlyFirstClickCounts(s: VotingScreen, optionIds: seq<int>)
    ensures Clicks(s, optionIds) == if |optionIds| == 0 then s else HandleVote(s, optionIds[0])
  {
    if |optionIds| > 0 {
      var t := HandleVote(s, optionIds[0]);
      ClicksFromVoted(t, optionIds[1..]);
    }
  }

  /** A screen that has voted stays the same under any run of clicks. */
  lemma {:induction false} ClicksFromVoted(s: VotingScreen, optionIds: seq<int>)
    requires s.hasVoted
    ensures Clicks(s, optionIds) == s
  {
    if |optionIds| > 0 {
      ClicksFromVoted(s, optionIds[1..]);
    }
  }

  /** Whatever is clicked, the total never grows by more than one (ids unique). */
  lemma ClicksAddAtMostOneVote(options: seq<VoteOption>, optionIds: seq<int>)
    requires UniqueIds(options)
    ensures TotalVotes(Clicks(Start(options), optionIds).options) <= TotalVotes(options) + 1
  {
    OnlyFirstClickCounts(Start(options), optionIds);
    if |optionIds| > 0 {
      CountIdUnique(options, optionIds[0]);
    }
  }

  /**
   Share of the votes held by one option, in percent; zero when nothing has
   been counted, so the division is never by zero.
   */
  function Percentage(votes: nat, total: nat): (pct: real)
    ensures total == 0 ==> pct == 0.0
    ensures total > 0 ==> pct * (total as real) == (votes as real) * 100.0
    ensures votes <= total ==> 0.0 <= pct <= 100.0
  {
    if total > 0 then (votes as real / total as real) * 100.0 else 0.0
  }

  /** Sum of the options' real-valued percentages, against a fixed total. */
  function PercentageSum(options: seq<VoteOption>, total: nat): real
  {
    if |options| == 0 then 0.0 else Percentage(options[0].votes, total) + PercentageSum(options[1..], total)
  }

  /** Against the true total, the real-valued percentages add up to 100 (or are all 0). */
  lemma PercentagesAddUp(options: seq<VoteOption>)
    ensures PercentageSum(options, TotalVotes(options)) == if TotalVotes(options) > 0 then 100.0 else 0.0
  {
    var t := TotalVotes(options);
    if t > 0 {
      PercentageSumScaled(options, t);
      CancelTotal(PercentageSum(options, t), t as real);
    } else {
      PercentageSumZero(options);
    }
  }

  /** A sum that, times a positive total, is 100 times that total is 100. */
  lemma CancelTotal(sum: real, total: real)
    requires total > 0.0 && sum * total == total * 100.0
    ensures sum == 100.0
  {
    assert (sum - 100.0) * total == 0.0;
  }

  /** Scaled by a positive total, the percentages sum to 100 times the votes. */
  lemma {:induction false} PercentageSumScaled(options: seq<VoteOption>, total: nat)
    requires total > 0
    ensures PercentageSum(options, total) * (total as real) == (TotalVotes(options) as real) * 100.0
  {
    if |options| > 0 {
      PercentageSumScaled(options[1..], total);
      var p := Percentage(options[0].votes, total);
      var rest := PercentageSum(options[1..], total);
      assert (p + rest) * (total as real) == p * (total as real) + rest * (total as real);
    }
  }

  /** Against a zero total every percentage is 0, and so is their sum. */
  lemma {:induction false} PercentageSumZero(options: seq<VoteOption>)
    ensures PercentageSum(options, 0) == 0.0
  {
    if |options| > 0 {
      PercentageSumZero(options[1..]);
    }
  }

  /** Each option's real-valued percentage lies between 0 and 100. */
  lemma PercentageInRange(options: seq<VoteOption>, k: int)
    requires 0 <= k < |options|
    ensures 0.0 <= Percentage(options[k].votes, TotalVotes(options)) <= 100.0
  {
    VotesAtMostTotal(options, k);
  }

  /**
   The "votes cast" badge as the component computes it: the total plus one
   once the listener has voted, although that vote is already in the total.
   */
  function BadgeCountAsWritten(s: VotingScreen): nat
  {
    TotalVotes(s.options) + (if s.hasVoted then 1 else 0)
  }

  /** After a first vote on a present id, the as-written badge jumps by two. */
  lemma BadgeAsWrittenCountsVoteTwice(s: VotingScreen, optionId: int, k: int)
    requires !s.hasVoted && UniqueIds(s.options)
    requires 0 <= k < |s.options| && s.options[k].id == optionId
    ensures BadgeCountAsWritten(HandleVote(s, optionId)) == BadgeCountAsWritten(s) + 2
    ensures BadgeCountAsWritten(HandleVote(s, optionId)) == TotalVotes(HandleVote(s, optionId).options) + 1
  {
    VoteForPresentId(s, optionId, k);
  }

  /** A concrete screen: one option with no votes; voting shows "2 votes cast". */
  lemma BadgeAsWrittenExample()
    ensures var s := Start([VoteOption(1, "Track", "Artist", 0)]);
      && TotalVotes(HandleVote(s, 1).options) == 1
      && BadgeCountAsWritten(HandleVote(s, 1)) == 2
  {
  }

  /** The badge as evidently intended: the number of votes recorded in the options. */
  function BadgeCount(s: VotingScreen): (n: nat)
    ensures forall k :: 0 <= k < |s.options| ==> s.options[k].votes <= n
  {
    forall k | 0 <= k < |s.options| ensures s.options[k].votes <= TotalVotes(s.options) {
      VotesAtMostTotal(s.options, k);
    }
    TotalVotes(s.options)
  }

  /**
   The corrected badge counts the listener's own vote exactly once: it rises by
   one on the first vote for a present id and never moves again.
   */
  lemma BadgeCountsVoteOnce(s: VotingScreen, optionId: int, k: int, later: seq<int>)
    requires !s.hasVoted && UniqueIds(s.options)
    requires 0 <= k < |s.options| && s.options[k].id == optionId
    ensures BadgeCount(HandleVote(s, optionId)) == BadgeCount(s) + 1
    ensures BadgeCount(Clicks(HandleVote(s, optionId), later)) == BadgeCount(s) + 1
  {
    VoteForPresentId(s, optionId, k);
    ClicksFromVoted(HandleVote(s, optionId), later);
  }
}
