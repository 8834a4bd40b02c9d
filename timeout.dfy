/**
 * The timeout policy, the second half of manage_user_status_and_roles
 * (bot.py:143-191). Times are whole seconds; `until` is the member's current
 * "communication disabled until" value and `now` the current time.
 */
module Timeout {
  import opened Wrappers

  /** The longest timeout the platform accepts: 28 days. */
  const MaxTimeoutSeconds := 28 * 24 * 60 * 60

  /** Ten minutes of timeout per full thousand credits below zero. */
  const SecondsPerThousand := 10 * 60

  /** What to do about the member's timeout. */
  datatype Directive =
    | NoAction
    | Lift                // clear the timeout
    | Apply(end: int)     // time out until `end`, no timeout being active
    | Extend(end: int)    // move the active timeout's end later, to `end`

  /** A timeout is active when its end is set and lies strictly after `now`. */
  predicate Active(until: Option<int>, now: int)
  {
    until.Some? && until.value > now
  }

  function Min(a: int, b: int): int
  {
    if a <= b then a else b
  }

  /**
   * The timeout length for a score: zero for scores of zero and above and
   * for deficits under a thousand, else ten minutes per full thousand below
   * zero, capped at 28 days.
   */
  function TimeoutSeconds(credits: int): (d: nat)
    ensures d <= MaxTimeoutSeconds
    ensures d > 0 <==> credits <= -1000
    ensures d % SecondsPerThousand == 0
    ensures credits < 0 ==> d == Min((-credits / 1000) * SecondsPerThousand, MaxTimeoutSeconds)
  {
    if credits >= 0 then 0
    else
      var thousands := -credits / 1000;
      if thousands > 0 then Min(thousands * SecondsPerThousand, MaxTimeoutSeconds) else 0
  }

  /**
   * The directive for a member whose score is now `credits`. A score of zero
   * or more lifts an active timeout; a negative score with a non-zero
   * timeout length applies a timeout ending `TimeoutSeconds(credits)` from
   * now when none is active, and extends the active one only when that end
   * is later than its current end.
   */
  function TimeoutDirective(credits: int, until: Option<int>, now: int): (d: Directive)
    ensures credits >= 0 ==> (d == Lift <==> Active(until, now)) && (d == Lift || d == NoAction)
    ensures credits < 0 ==> d != Lift
    ensures TimeoutSeconds(credits) == 0 && credits < 0 ==> d == NoAction
    ensures d.Apply? <==> credits < 0 && TimeoutSeconds(credits) > 0 && !Active(until, now)
    ensures d.Extend? <==> credits < 0 && TimeoutSeconds(credits) > 0 && Active(until, now)
                           && now + TimeoutSeconds(credits) > until.value
    ensures d.Apply? || d.Extend? ==> d.end == now + TimeoutSeconds(credits)
  {
    if credits >= 0 then
      if Active(until, now) then Lift else NoAction
    else
      var seconds := TimeoutSeconds(credits);
      if seconds == 0 then NoAction
      else
        var candidate := now + seconds;
        if !Active(until, now) then Apply(candidate)
        else if candidate > until.value then Extend(candidate)
        else NoAction
  }

  /**
   * The decision as the bot takes it, step by step: a flag says whether the
   * timeout is to be applied or updated, and the reason says which. The
   * plan-building method `Engine.ManageStatus` takes its directive from here.
   */
  method DecideTimeout(credits: int, until: Option<int>, now: int) returns (d: Directive)
    ensures d == TimeoutDirective(credits, until, now)
  {
    d := NoAction;
    if credits >= 0 {
      if until.Some? && until.value > now {
        d := Lift;
      }
    } else {
      var thousands := -credits / 1000;
      var seconds := 0;
      if thousands > 0 {
        seconds := thousands * 10 * 60;
        seconds := Min(seconds, MaxTimeoutSeconds);
      }
      if seconds > 0 {
        var candidate := now + seconds;
        var applyOrUpdate := false;
        var extending := false;
        var currentActive := until.Some? && until.value > now;
        if !currentActive {
          applyOrUpdate := true;
        } else if until.None? || candidate > until.value {
          applyOrUpdate := true;
          extending := true;
        }
        if applyOrUpdate {
          d := if extending then Extend(candidate) else Apply(candidate);
        }
      }
    }
  }

  /** The member's timeout end once the directive has been carried out. */
  function EndAfter(until: Option<int>, d: Directive): Option<int>
  {
    match d
    case NoAction => until
    case Lift => None
    case Apply(e) => Some(e)
    case Extend(e) => Some(e)
  }

  /**
   * With a negative score and a non-zero timeout length the member ends up
   * timed out until the later of the active end and now plus the length:
   * timeouts escalate and are never shortened.
   */
  lemma TimeoutNeverShortened(credits: int, until: Option<int>, now: int)
    requires credits < 0 && TimeoutSeconds(credits) > 0
    ensures var candidate := now + TimeoutSeconds(credits);
      EndAfter(until, TimeoutDirective(credits, until, now))
        == Some(if Active(until, now) && until.value >= candidate then until.value else candidate)
  {
  }

  /** With a score of zero or more no timeout is active afterwards, whatever its end was. */
  lemma Amnesty(credits: int, until: Option<int>, now: int)
    requires credits >= 0
    ensures !Active(EndAfter(until, TimeoutDirective(credits, until, now)), now)
  {
  }

  /**
   * Carrying the directive out and deciding again at the same time with the
   * same score asks for nothing more.
   */
  lemma TimeoutDirectiveIdempotent(credits: int, until: Option<int>, now: int)
    ensures TimeoutDirective(credits, EndAfter(until, TimeoutDirective(credits, until, now)), now) == NoAction
  {
  }

  /** A lower score never gets a shorter timeout. */
  lemma TimeoutSecondsMonotone(c1: int, c2: int)
    requires c1 <= c2
    ensures TimeoutSeconds(c1) >= TimeoutSeconds(c2)
  {
    if c2 < 0 {
      assert -c1 / 1000 >= -c2 / 1000;
    }
  }

  /** Sample lengths: -1000 gives ten minutes, -2500 twenty, -999 none, a deficit of 4032 thousands or more 28 days. */
  lemma TimeoutSecondsExamples(c: int)
    ensures TimeoutSeconds(-1000) == 600
    ensures TimeoutSeconds(-2500) == 1200
    ensures TimeoutSeconds(-999) == 0 && TimeoutSeconds(-1) == 0
    ensures TimeoutSeconds(-4031999) == 2418600
    ensures c <= -4032000 ==> TimeoutSeconds(c) == 2419200
  {
    if c <= -4032000 {
      assert -c / 1000 >= 4032;
    }
  }
}
