/** The context windows sent along with a request: `collectContextForNode`
    takes the messages just before the one being translated, and
    `collectLatestContext` the newest messages of the channel. The visible
    message nodes are an input, each reduced to what `readMessageMeta`
    reads from it. */
module Context {
  import opened Text

  /** A visible message node: its element id, the author shown and the text.
      An empty `text` stands for a node `readMessageMeta` gives up on. */
  datatype Message = Message(nodeId: string, author: string, text: string)

  /** One line of context. */
  datatype Line = Line(author: string, text: string)

  /** The limits the two windows truncate each text to. */
  const NodeLimit: nat := 300
  const LatestLimit: nat := 360

  /** The line a message contributes: an empty author reads as `Unknown`. */
  function LineOf(m: Message, limit: nat): (l: Line)
    ensures l.author != []
    ensures m.text != [] ==> l.text != [] && |l.text| <= limit + 3
  {
    Line(if m.author == [] then "Unknown" else m.author, Truncate(m.text, limit))
  }

  /** `findIndex` by node id: the first position holding `id`, or -1. */
  function IndexOf(nodes: seq<Message>, id: string): (idx: int)
    ensures -1 <= idx < |nodes|
    ensures idx >= 0 ==> nodes[idx].nodeId == id && forall k :: 0 <= k < idx ==> nodes[k].nodeId != id
    ensures idx < 0 ==> forall k :: 0 <= k < |nodes| ==> nodes[k].nodeId != id
  {
    if nodes == [] then -1
    else if nodes[0].nodeId == id then 0
    else
      var rest := IndexOf(nodes[1..], id);
      if rest < 0 then -1 else rest + 1
  }

  /** The lines of the messages at positions `lo` up to `hi`, in order,
      skipping those without text. */
  function Lines(nodes: seq<Message>, lo: nat, hi: nat, limit: nat): (r: seq<Line>)
    requires lo <= hi <= |nodes|
    ensures |r| <= hi - lo
    decreases hi - lo
  {
    if lo == hi then []
    else
      var prefix := Lines(nodes, lo, hi - 1, limit);
      if nodes[hi - 1].text != [] then prefix + [LineOf(nodes[hi - 1], limit)] else prefix
  }

  /** `l` is the line of a message with text at a position from `lo` up to `hi`. */
  ghost predicate LineFrom(nodes: seq<Message>, lo: nat, hi: nat, limit: nat, l: Line)
    requires lo <= hi <= |nodes|
  {
    exists i :: lo <= i < hi && nodes[i].text != [] && l == LineOf(nodes[i], limit)
  }

  /** Every line of a window comes from a message of that window that has text. */
  lemma {:induction false} LinesFrom(nodes: seq<Message>, lo: nat, hi: nat, limit: nat)
    requires lo <= hi <= |nodes|
    ensures forall j :: 0 <= j < |Lines(nodes, lo, hi, limit)| ==>
      LineFrom(nodes, lo, hi, limit, Lines(nodes, lo, hi, limit)[j])
    decreases hi - lo
  {
    if lo < hi {
      LinesFrom(nodes, lo, hi - 1, limit);
      var prefix := Lines(nodes, lo, hi - 1, limit);
      var r := Lines(nodes, lo, hi, limit);
      forall j | 0 <= j < |r|
        ensures LineFrom(nodes, lo, hi, limit, r[j])
      {
        if j < |prefix| {
          assert LineFrom(nodes, lo, hi - 1, limit, prefix[j]);
          var i :| lo <= i < hi - 1 && nodes[i].text != [] && prefix[j] == LineOf(nodes[i], limit);
          assert r[j] == prefix[j];
        } else {
          assert r[j] == LineOf(nodes[hi - 1], limit);
        }
      }
    }
  }

  /** A window split in two is the two windows of its halves, in order. */
  lemma {:induction false} LinesSplit(nodes: seq<Message>, lo: nat, mid: nat, hi: nat, limit: nat)
    requires lo <= mid <= hi <= |nodes|
    ensures Lines(nodes, lo, hi, limit) == Lines(nodes, lo, mid, limit) + Lines(nodes, mid, hi, limit)
    decreases hi - mid
  {
    if mid < hi {
      LinesSplit(nodes, lo, mid, hi - 1, limit);
      var last := if nodes[hi - 1].text != [] then [LineOf(nodes[hi - 1], limit)] else [];
      assert Lines(nodes, lo, hi, limit) == Lines(nodes, lo, hi - 1, limit) + last;
      assert Lines(nodes, mid, hi, limit) == Lines(nodes, mid, hi - 1, limit) + last;
    }
  }

  /** When every message of a window has text, each contributes its line, in order. */
  lemma {:induction false} LinesAllPresent(nodes: seq<Message>, lo: nat, hi: nat, limit: nat)
    requires lo <= hi <= |nodes|
    requires forall i :: lo <= i < hi ==> nodes[i].text != []
    ensures Lines(nodes, lo, hi, limit) == seq(hi - lo, k requires 0 <= k < hi - lo => LineOf(nodes[lo + k], limit))
    decreases hi - lo
  {
    if lo < hi {
      LinesAllPresent(nodes, lo, hi - 1, limit);
      var whole := seq(hi - lo, k requires 0 <= k < hi - lo => LineOf(nodes[lo + k], limit));
      var front := seq(hi - 1 - lo, k requires 0 <= k < hi - 1 - lo => LineOf(nodes[lo + k], limit));
      assert whole == front + [LineOf(nodes[hi - 1], limit)];
    }
  }

  /** The first position of the window before position `idx`. */
  function WindowStart(idx: nat, maxCount: int): (start: nat)
    ensures start <= idx
    ensures idx - start == Min(idx, Max(1, maxCount))
  {
    Max(0, idx - Max(1, maxCount))
  }

  /** What `collectContextForNode` returns: nothing when the target node is
      not shown, otherwise the lines of the at most `max(1, maxCount)`
      messages right before it. */
  function ForNode(nodes: seq<Message>, targetId: string, maxCount: int): seq<Line> {
    var idx := IndexOf(nodes, targetId);
    if idx < 0 then [] else Lines(nodes, WindowStart(idx, maxCount), idx, NodeLimit)
  }

  /** What `collectLatestContext` returns: the lines of the last `maxCount` messages. */
  function Latest(nodes: seq<Message>, maxCount: int): seq<Line> {
    Lines(nodes, Min(Max(0, |nodes| - maxCount), |nodes|), |nodes|, LatestLimit)
  }

  /** `collectContextForNode`. */
  method CollectContextForNode(nodes: seq<Message>, targetId: string, maxCount: int) returns (context: seq<Line>)
    ensures context == ForNode(nodes, targetId, maxCount)
  {
    var idx := IndexOf(nodes, targetId);
    if idx < 0 {
      return [];
    }
    var start := Max(0, idx - Max(1, maxCount));
    context := [];
    for i := start to idx
      invariant context == Lines(nodes, start, i, NodeLimit)
    {
      if nodes[i].text == [] {
        continue;
      }
      context := context + [LineOf(nodes[i], NodeLimit)];
    }
  }

  /** `collectLatestContext`. */
  method CollectLatestContext(nodes: seq<Message>, maxCount: int) returns (context: seq<Line>)
    ensures context == Latest(nodes, maxCount)
  {
    context := [];
    var start := Max(0, |nodes| - maxCount);
    var i := start;
    while i < |nodes|
      invariant start <= i <= Max(start, |nodes|)
      invariant context == Lines(nodes, Min(start, |nodes|), Min(i, |nodes|), LatestLimit)
    {
      if nodes[i].text != [] {
        context := context + [LineOf(nodes[i], LatestLimit)];
      }
      i := i + 1;
    }
  }

  /** A target that is not shown gets no context. */
  lemma AbsentTarget(nodes: seq<Message>, targetId: string, maxCount: int)
    requires forall k :: 0 <= k < |nodes| ==> nodes[k].nodeId != targetId
    ensures ForNode(nodes, targetId, maxCount) == []
  {
  }

  /** The node window holds at most `max(1, maxCount)` lines, each taken from
      a message before the target and truncated to 300 characters plus `...`. */
  lemma ForNodeBounds(nodes: seq<Message>, targetId: string, maxCount: int)
    ensures |ForNode(nodes, targetId, maxCount)| <= Max(1, maxCount)
    ensures IndexOf(nodes, targetId) >= 0 ==> forall j :: 0 <= j < |ForNode(nodes, targetId, maxCount)| ==>
      LineFrom(nodes, WindowStart(IndexOf(nodes, targetId), maxCount), IndexOf(nodes, targetId), NodeLimit, ForNode(nodes, targetId, maxCount)[j])
    ensures forall j :: 0 <= j < |ForNode(nodes, targetId, maxCount)| ==>
      |ForNode(nodes, targetId, maxCount)[j].text| <= NodeLimit + 3
  {
    var idx := IndexOf(nodes, targetId);
    if idx >= 0 {
      var r := Lines(nodes, WindowStart(idx, maxCount), idx, NodeLimit);
      LinesFrom(nodes, WindowStart(idx, maxCount), idx, NodeLimit);
      forall j | 0 <= j < |r| ensures |r[j].text| <= NodeLimit + 3 {
        assert LineFrom(nodes, WindowStart(idx, maxCount), idx, NodeLimit, r[j]);
        var i :| WindowStart(idx, maxCount) <= i < idx && nodes[i].text != [] && r[j] == LineOf(nodes[i], NodeLimit);
      }
    }
  }

  /** With the target at position 10, a window of 6 and every message
      carrying text, the context is the lines of positions 4 to 9. */
  lemma TenthMessage(nodes: seq<Message>, targetId: string)
    requires IndexOf(nodes, targetId) == 10
    requires forall i :: 0 <= i < 10 ==> nodes[i].text != []
    ensures ForNode(nodes, targetId, 6) == seq(6, k requires 0 <= k < 6 => LineOf(nodes[4 + k], NodeLimit))
  {
    assert WindowStart(10, 6) == 4;
    LinesAllPresent(nodes, 4, 10, NodeLimit);
  }

  /** The latest window holds at most `maxCount` lines, and with every
      message carrying text it is the lines of the last `min(maxCount, n)` messages. */
  lemma LatestWindow(nodes: seq<Message>, maxCount: int)
    ensures |Latest(nodes, maxCount)| <= Max(0, Min(maxCount, |nodes|))
    ensures (forall i :: 0 <= i < |nodes| ==> nodes[i].text != []) ==>
      var start := Min(Max(0, |nodes| - maxCount), |nodes|);
      Latest(nodes, maxCount) == seq(|nodes| - start, k requires 0 <= k < |nodes| - start => LineOf(nodes[start + k], LatestLimit))
  {
    var start := Min(Max(0, |nodes| - maxCount), |nodes|);
    if forall i :: 0 <= i < |nodes| ==> nodes[i].text != [] {
      LinesAllPresent(nodes, start, |nodes|, LatestLimit);
    }
  }
}
