/** One run of the email notification check: when tasks are pending, one
    log line announcing their number is appended to the email log. */
module Notify {
  import opened Text
  import opened Tasks
  import opened Stats

  const Opening: string := "] Email notification: You have "
  const Closing: string := " pending task(s)"

  /** `[${timestamp}] Email notification: You have ${count} pending task(s)`,
      where the time stamp is the locale rendering of the current time. The
      line opens with the bracketed time stamp and the fixed text, ends with
      the fixed closing text, and between them holds the count's decimal
      digits: they read back as the count and carry no leading zero. */
  function Message(timestamp: string, count: nat): (m: string)
    ensures 1 + |timestamp| + |Opening| < |m| - |Closing|
    ensures m[..1 + |timestamp| + |Opening|] == "[" + timestamp + Opening
    ensures m[|m| - |Closing|..] == Closing
    ensures AllDigits(m[1 + |timestamp| + |Opening|..|m| - |Closing|])
    ensures ParseNat(m[1 + |timestamp| + |Opening|..|m| - |Closing|]) == count
    ensures m[1 + |timestamp| + |Opening|] == '0' ==> m[1 + |timestamp| + |Opening|..|m| - |Closing|] == "0"
  {
    var head := "[" + timestamp + Opening;
    var digits := NatToString(count);
    var m := head + digits + Closing;
    assert m[..|head|] == head;
    assert m[|head|..|m| - |Closing|] == digits;
    assert m[|m| - |Closing|..] == Closing;
    ParseNatToString(count);
    m
  }

  /** Lines with the same time stamp announce different counts differently. */
  lemma MessageDistinguishesCounts(timestamp: string, a: nat, b: nat)
    requires Message(timestamp, a) == Message(timestamp, b)
    ensures a == b
  {
  }

  /** `checkPendingTasks`: appends one line, carrying the Pending count, when
      some task is pending, and nothing otherwise; earlier lines stay as they are. */
  function Scan(tasks: seq<Task>, log: seq<string>, timestamp: string): (r: seq<string>)
    ensures |r| == |log| || |r| == |log| + 1
    ensures |r| == |log| + 1 <==> exists t :: t in tasks && t.status == Pending
    ensures r[..|log|] == log
    ensures |r| == |log| + 1 ==> r[|log|] == Message(timestamp, PendingCount(tasks))
  {
    var n := PendingCount(tasks);
    if n > 0 then log + [Message(timestamp, n)] else log
  }
}
