/** timer_node.h and the two node types built on it. */
module TimerNodes {
  /** The function a timer calls when it expires. */
  datatype Handler = NoHandler | LogfileRewinding | ScreenInput | RampUp | RequestRate | Sleeping | UrlCompletion

  /** timer_node: the user's part of a timer. `owner` is the index of the virtual client
      that embeds the node, where there is one. */
  class TimerNode {
    const owner: nat
    var nextTimer: nat
    var period: nat
    var handler: Handler
    var timerId: int

    constructor (owner: nat)
      ensures this.owner == owner && nextTimer == 0 && period == 0 && timerId == 0 && handler == NoHandler
    {
      this.owner := owner;
      nextTimer, period, timerId, handler := 0, 0, 0, NoHandler;
    }
  }

  /** hnode: the queue's own node, allocated from a pool and linked there while free. */
  class HNode {
    var next: HNode?
    var memBlockStart: bool
    var nodeId: int
    var ctx: TimerNode?

    constructor (start: bool)
      ensures next == null && memBlockStart == start && nodeId == 0 && ctx == null
    {
      next, memBlockStart, nodeId, ctx := null, start, 0, null;
    }
  }
}
