/** The round of the shared game state: whether buzzing is open, who buzzed,
    after how many ticks, and when the round was started. Time is an integer
    clock reading `now` that the caller supplies. */
module RoundRules {

  datatype Option<T> = None | Some(value: T)

  /** `active` is the game_active flag, `buzzed` the buzzed player, `buzzedTime`
      the ticks from the start of the round to the winning buzz, `startTime`
      the clock reading at the start of the round. */
  datatype Round = Round(active: bool, buzzed: Option<string>, buzzedTime: Option<int>, startTime: Option<int>)

  /** The round of a freshly created game state: nothing started, nobody buzzed. */
  const Initial: Round := Round(false, None, None, None)

  /** What every operation keeps: a winner and a time are recorded together,
      and an open round has no winner yet and a start time. */
  predicate Inv(r: Round) {
    (r.buzzed.None? <==> r.buzzedTime.None?) &&
    (r.active ==> r.buzzed.None? && r.startTime.Some?)
  }

  /** A buzz is accepted only while the round is active and nobody has buzzed. */
  predicate Open(r: Round) {
    r.active && r.buzzed.None?
  }

  /** Starting a round opens it afresh at `now`, whatever came before. */
  function StartRound(r: Round, now: int): (s: Round)
    ensures Inv(s) && Open(s)
    ensures s.buzzedTime.None? && s.startTime == Some(now)
  {
    Round(true, None, None, Some(now))
  }

  /** A buzz by `who` at `now`: the result says whether it won. A winning buzz
      records `who` and the ticks since the start and closes the round; a
      losing buzz changes nothing. Either way the round is closed afterwards. */
  function Buzz(r: Round, who: string, now: int): (res: (Round, bool))
    requires Inv(r)
    ensures res.1 <==> Open(r)
    ensures res.1 ==> r.startTime.Some? &&
                      res.0 == Round(false, Some(who), Some(now - r.startTime.value), r.startTime)
    ensures !res.1 ==> res.0 == r
    ensures Inv(res.0) && !Open(res.0)
    ensures res.1 && now >= r.startTime.value ==> res.0.buzzedTime.value >= 0
  {
    if Open(r) then
      (Round(false, Some(who), Some(now - r.startTime.value), r.startTime), true)
    else
      (r, false)
  }

  /** Resetting closes the round and forgets the winner and the time; the
      start time is kept. */
  function ResetGame(r: Round): (s: Round)
    ensures Inv(s) && !Open(s)
    ensures !s.active && s.buzzed.None? && s.buzzedTime.None? && s.startTime == r.startTime
  {
    Round(false, None, None, r.startTime)
  }

  /** A race: the buzz calls `calls` (player, clock reading) processed one after
      the other from `r`; the round reached and each call's answer. */
  function BuzzAll(r: Round, calls: seq<(string, int)>): (res: (Round, seq<bool>))
    requires Inv(r)
    ensures Inv(res.0) && |res.1| == |calls|
    ensures calls != [] ==> !Open(res.0)
    decreases |calls|
  {
    if calls == [] then (r, [])
    else
      var first := Buzz(r, calls[0].0, calls[0].1);
      var rest := BuzzAll(first.0, calls[1..]);
      (rest.0, [first.1] + rest.1)
  }

  /** Once the round is closed, every further buzz is refused and nothing changes. */
  lemma {:induction false} ClosedRoundRefusesAll(r: Round, calls: seq<(string, int)>)
    requires Inv(r) && !Open(r)
    ensures BuzzAll(r, calls).0 == r
    ensures forall i :: 0 <= i < |calls| ==> !BuzzAll(r, calls).1[i]
    decreases |calls|
  {
    if calls != [] {
      ClosedRoundRefusesAll(r, calls[1..]);
    }
  }

  /** At most one winner per round: of any sequence of buzz calls, only the
      first can win, it wins exactly when the round is open, and then the
      round records that caller and the ticks since the start. */
  lemma {:induction false} OnlyFirstBuzzCanWin(r: Round, calls: seq<(string, int)>)
    requires Inv(r)
    ensures var (s, oks) := BuzzAll(r, calls);
            (forall i :: 0 < i < |calls| ==> !oks[i]) &&
            (calls != [] ==> (oks[0] <==> Open(r))) &&
            (!Open(r) ==> s == r) &&
            (calls != [] && Open(r) ==>
               r.startTime.Some? &&
               s == Round(false, Some(calls[0].0), Some(calls[0].1 - r.startTime.value), r.startTime))
  {
    if calls == [] {
    } else {
      var first := Buzz(r, calls[0].0, calls[0].1);
      ClosedRoundRefusesAll(first.0, calls[1..]);
      if !Open(r) {
        assert first.0 == r;
      }
    }
  }
}
