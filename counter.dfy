/** The counter's arithmetic and the colour its display takes. The page
    object (LabScript.LabPage) applies these one click at a time; here
    they are also folded over a whole sequence of clicks. */
module Counter {

  /** Colour of the counter text for negative values. */
  const NegativeColor := "#e74c3c"
  /** Colour of the counter text for zero and positive values. */
  const NonNegativeColor := "#2c3e50"

  /** The colour `updateCounterDisplay` picks: the negative colour exactly
      when the value is below zero, so zero is shown in the other one. */
  function ColorFor(value: int): (color: string)
    ensures color == NegativeColor <==> value < 0
    ensures color == NonNegativeColor <==> value >= 0
  {
    if value < 0 then NegativeColor else NonNegativeColor
  }

  /** The three counter buttons. */
  datatype Click = Increment | Decrement | Reset

  /** The counter after one click: a reset gives 0, and the other two
      buttons move the value by their own signed step (see Net). */
  function Step(value: int, click: Click): (r: int)
    ensures click == Reset ==> r == 0
    ensures click != Reset ==> r == value + Net([click])
  {
    match click
    case Increment => value + 1
    case Decrement => value - 1
    case Reset => 0
  }

  /** The counter after a sequence of clicks, applied first to last. */
  function Run(value: int, clicks: seq<Click>): int
    decreases |clicks|
  {
    if clicks == [] then value else Run(Step(value, clicks[0]), clicks[1..])
  }

  /** Run read from the other end: the value after a non-empty sequence is
      its last click applied to the value after all the others, which is how
      the page gets there, one click at a time. */
  lemma {:induction false} RunLast(value: int, clicks: seq<Click>)
    requires clicks != []
    ensures Run(value, clicks) == Step(Run(value, clicks[..|clicks| - 1]), clicks[|clicks| - 1])
    decreases |clicks|
  {
    if |clicks| > 1 {
      assert clicks[1..][..|clicks| - 2] == clicks[..|clicks| - 1][1..];
      RunLast(Step(value, clicks[0]), clicks[1..]);
    }
  }

  /** Number of increments minus number of decrements: never more, in size,
      than the number of clicks. */
  function Net(clicks: seq<Click>): (r: int)
    ensures -|clicks| <= r <= |clicks|
    decreases |clicks|
  {
    if clicks == [] then 0
    else (match clicks[0] case Increment => 1 case Decrement => -1 case Reset => 0) + Net(clicks[1..])
  }

  /** Without a reset, the counter moves by exactly the algebraic sum of
      its +1 and -1 steps. */
  lemma {:induction false} RunWithoutReset(value: int, clicks: seq<Click>)
    requires Reset !in clicks
    ensures Run(value, clicks) == value + Net(clicks)
    decreases |clicks|
  {
    if clicks != [] {
      assert clicks[0] in clicks && Reset !in clicks[1..];
      RunWithoutReset(Step(value, clicks[0]), clicks[1..]);
    }
  }

  /** A reset forgets everything before it, whatever the value was. */
  lemma {:induction false} ResetForgetsHistory(value: int, before: seq<Click>, after: seq<Click>)
    ensures Run(value, before + [Reset] + after) == Run(0, after)
    decreases |before|
  {
    if before == [] {
      assert before + [Reset] + after == [Reset] + after;
      assert ([Reset] + after)[1..] == after;
    } else {
      assert (before + [Reset] + after)[0] == before[0];
      assert (before + [Reset] + after)[1..] == before[1..] + [Reset] + after;
      ResetForgetsHistory(Step(value, before[0]), before[1..], after);
    }
  }

  /** Starting from the initial value 0, clicks with no reset leave the
      counter at the sum of their steps, and its colour is the negative one
      exactly when there were more decrements than increments. */
  lemma FromZero(clicks: seq<Click>)
    requires Reset !in clicks
    ensures Run(0, clicks) == Net(clicks)
    ensures ColorFor(Run(0, clicks)) == NegativeColor <==> Net(clicks) < 0
  {
    RunWithoutReset(0, clicks);
  }
}
