/**
 * The per-sender cooldown of the send-mail command: the time of each
 * sender's last admitted request, in seconds.
 */
module Cooldown {
  import opened Players

  type LastMailTimes = map<ulong, int>

  /** A sender is admitted when they have no recorded time or at least
      `cooldown` seconds have passed since it. */
  predicate Admits(lastMailTimes: LastMailTimes, sender: ulong, now: int, cooldown: int) {
    sender !in lastMailTimes || now - lastMailTimes[sender] >= cooldown
  }

  /** After a sender is admitted at `t`, a request `d` seconds later is
      admitted exactly when `d` is at least the cooldown, and other senders
      are admitted or not as before. */
  lemma CooldownWindow(lastMailTimes: LastMailTimes, sender: ulong, t: int, d: int, cooldown: int, other: ulong, now: int)
    ensures Admits(lastMailTimes[sender := t], sender, t + d, cooldown) <==> d >= cooldown
    ensures other != sender ==>
              Admits(lastMailTimes[sender := t], other, now, cooldown) == Admits(lastMailTimes, other, now, cooldown)
  {
  }

  /** Which of a sender's requests, at the given instants, are admitted,
      each admission recording its instant. */
  function Admissions(lastMailTimes: LastMailTimes, sender: ulong, instants: seq<int>, cooldown: int): seq<bool>
    decreases |instants|
  {
    if instants == [] then []
    else
      var ok := Admits(lastMailTimes, sender, instants[0], cooldown);
      var next := if ok then lastMailTimes[sender := instants[0]] else lastMailTimes;
      [ok] + Admissions(next, sender, instants[1..], cooldown)
  }

  /** A first-time sender with a one-minute cooldown: admitted at 0,
      refused at 30, admitted at 61. */
  lemma OneMinuteScenario(lastMailTimes: LastMailTimes, sender: ulong)
    requires sender !in lastMailTimes
    ensures Admissions(lastMailTimes, sender, [0, 30, 61], 60) == [true, false, true]
  {
    var t0 := lastMailTimes[sender := 0];
    assert [0, 30, 61][1..] == [30, 61] && [30, 61][1..] == [61] && [61][1..] == [];
    assert Admissions(t0, sender, [30, 61], 60) == [false] + Admissions(t0, sender, [61], 60);
  }
}
