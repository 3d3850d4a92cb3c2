/** The cooperative deadline: readings of the turn clock and the timeout signal. */
module Deadline {

  /** Either a completed computation or the `SearchTimeout` signal, which every search layer propagates. */
  datatype Result<T> = Done(value: T) | Timeout

  /**
   * How many further polls succeed when the clock reads `timeLeft` now: a poll reads the clock,
   * aborts when the reading is below `threshold`, and every poll consumes one unit of time.
   */
  function Slack(timeLeft: int, threshold: int): int {
    timeLeft - threshold + 1
  }

  /** The clock after the poll that aborted, when the polls started at reading `timeLeft`. */
  function AfterTimeout(timeLeft: int, threshold: int): int {
    (if timeLeft < threshold then timeLeft else threshold - 1) - 1
  }
}
