/** The rest-timer store: a countdown towards an end time in epoch
    milliseconds. The clock reading and the outcome of scheduling the
    notification are parameters. */
module Timer {
  import opened Wrappers

  /** `Math.max(0, Math.floor((end - now) / 1000))`: whole seconds left, never
      negative. */
  function SecondsLeft(endTime: int, now: int): (r: nat)
    ensures r == 0 <==> endTime - now < 1000
    ensures r > 0 ==> r * 1000 <= endTime - now < (r + 1) * 1000
  {
    var s := (endTime - now) / 1000;
    if s < 0 then 0 else s
  }

  /** Time passing never increases the seconds left. */
  lemma SecondsLeftMonotone(endTime: int, now: int, later: int)
    requires now <= later
    ensures SecondsLeft(endTime, later) <= SecondsLeft(endTime, now)
  {
  }

  /** JavaScript truthiness of `endTime`: null and 0 both count as "no end time". */
  predicate HasEnd(endTime: Option<int>) {
    endTime.Some? && endTime.value != 0
  }

  class RestTimer {
    var isActive: bool
    var endTime: Option<int>
    var totalSeconds: int
    var remaining: int
    var notificationId: Option<string>

    /** An inactive timer has no end time, nothing left and no notification. */
    predicate Valid()
      reads this
    {
      (isActive <==> endTime.Some?) && (!isActive ==> remaining == 0 && notificationId.None?)
    }

    constructor ()
      ensures Valid()
      ensures !isActive && endTime.None? && totalSeconds == 0 && remaining == 0 && notificationId.None?
    {
      isActive, endTime, totalSeconds, remaining, notificationId := false, None, 0, 0, None;
    }

    /** `startTimer`: active, ending `seconds` from now, even when scheduling
        the notification failed (`scheduled` is None then). */
    method StartTimer(seconds: int, now: int, scheduled: Option<string>)
      modifies this
      ensures Valid()
      ensures isActive && endTime == Some(now + seconds * 1000)
      ensures totalSeconds == seconds && remaining == seconds && notificationId == scheduled
    {
      isActive, endTime, totalSeconds, remaining, notificationId := true, Some(now + seconds * 1000), seconds, seconds, scheduled;
    }

    /** `skipTimer`: back to the initial state (cancelling the notification is I/O). */
    method SkipTimer()
      modifies this
      ensures Valid()
      ensures !isActive && endTime.None? && totalSeconds == 0 && remaining == 0 && notificationId.None?
    {
      isActive, endTime, totalSeconds, remaining, notificationId := false, None, 0, 0, None;
    }

    /** `adjustTimer`: moves the end by `deltaSec` seconds and recomputes what is
        left; it never stops the timer, even at 0. */
    method AdjustTimer(deltaSec: int, now: int)
      requires Valid()
      modifies this
      ensures Valid()
      ensures !(old(isActive) && HasEnd(old(endTime))) ==>
                && isActive == old(isActive) && endTime == old(endTime) && remaining == old(remaining)
                && totalSeconds == old(totalSeconds) && notificationId == old(notificationId)
      ensures old(isActive) && HasEnd(old(endTime)) ==>
                && isActive && endTime == Some(old(endTime).value + deltaSec * 1000)
                && remaining == SecondsLeft(endTime.value, now)
                && totalSeconds == old(totalSeconds) && notificationId == old(notificationId)
    {
      if !isActive || !HasEnd(endTime) {
        return;
      }
      var newEnd := endTime.value + deltaSec * 1000;
      endTime, remaining := Some(newEnd), SecondsLeft(newEnd, now);
    }

    /** `tick`: recomputes what is left and stops the timer exactly when nothing is. */
    method Tick(now: int)
      requires Valid()
      modifies this
      ensures Valid()
      ensures totalSeconds == old(totalSeconds)
      ensures !(old(isActive) && HasEnd(old(endTime))) ==>
                && isActive == old(isActive) && endTime == old(endTime) && remaining == old(remaining)
                && notificationId == old(notificationId)
      ensures old(isActive) && HasEnd(old(endTime)) ==>
                && (isActive <==> SecondsLeft(old(endTime).value, now) > 0)
                && remaining == SecondsLeft(old(endTime).value, now)
      ensures old(isActive) && HasEnd(old(endTime)) && isActive ==>
                endTime == old(endTime) && notificationId == old(notificationId)
    {
      if !isActive || !HasEnd(endTime) {
        return;
      }
      var left := SecondsLeft(endTime.value, now);
      if left <= 0 {
        isActive, endTime, remaining, notificationId := false, None, 0, None;
      } else {
        remaining := left;
      }
    }
  }
}
