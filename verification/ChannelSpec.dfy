/** A channel as its users see it (doc/channel.md): a FIFO that can be closed and then drains. */
module ChannelSpec {
  datatype Status = OPEN | CLOSED | DRAINED

  datatype Chan<V> = Chan(items: seq<V>, closed: bool, drained: bool)

  function StatusOf<V>(c: Chan<V>): Status {
    if c.drained then DRAINED else if c.closed then CLOSED else OPEN
  }

  /** Drained is exactly closed and empty. */
  ghost predicate Consistent<V>(c: Chan<V>) {
    c.drained <==> c.closed && c.items == []
  }

  function Accept<V>(c: Chan<V>, vs: seq<V>): Chan<V> {
    if c.closed || c.drained then c else c.(items := c.items + vs)
  }

  /** Reading the last item of a closed channel drains it. */
  function TakeOne<V>(c: Chan<V>): Chan<V>
    requires |c.items| > 0
  {
    Chan(c.items[1..], c.closed, c.drained || (c.closed && |c.items| == 1))
  }

  function Closing<V>(c: Chan<V>): Chan<V> {
    if c.closed then c else Chan(c.items, true, c.drained || |c.items| == 0)
  }
}
