/** The in-place form of a subscription: each method is proved against the
    function on `Streams.Sub` of the same name. */
module Subscribers {
  import opened Records
  import S = Streams

  class Subscriber {
    var dedup: bool
    var cursorsByGroup: map<Name, int>
    var buffering: bool
    var buffer: seq<Message>
    var channel: seq<Message>

    ghost function Value(): S.Sub
      reads this
    {
      S.Sub(dedup, cursorsByGroup, buffering, buffer, channel)
    }

    constructor (dedup: bool, cursors: map<Name, int>, buffering: bool)
      ensures Value() == S.Sub(dedup, cursors, buffering, [], [])
    {
      this.dedup, this.cursorsByGroup, this.buffering := dedup, cursors, buffering;
      buffer, channel := [], [];
    }

    method EmitIfNew(m: Message)
      modifies this
      ensures Value() == S.EmitIfNew(old(Value()), m)
    {
      if !dedup {
        channel := channel + [m];
        return;
      }
      var last := if m.groupId in cursorsByGroup then cursorsByGroup[m.groupId] else 0;
      if m.cursor > last {
        cursorsByGroup := cursorsByGroup[m.groupId := m.cursor];
        channel := channel + [m];
      }
    }

    method Push(m: Message)
      modifies this
      ensures Value() == S.Push(old(Value()), m)
    {
      if buffering {
        buffer := buffer + [m];
      } else {
        EmitIfNew(m);
      }
    }

    method ReplayBacklog(ms: seq<Message>)
      modifies this
      ensures Value() == S.EmitAll(old(Value()), ms)
    {
      for i := 0 to |ms|
        invariant Value() == S.EmitAll(old(Value()), ms[..i])
      {
        EmitIfNew(ms[i]);
        S.EmitAllPush(old(Value()), ms[..i], ms[i]);
        assert ms[..i] + [ms[i]] == ms[..i + 1];
      }
      assert ms[..|ms|] == ms;
    }

    method FinishBuffering()
      modifies this
      ensures Value() == S.FinishBuffering(old(Value()))
    {
      buffering := false;
      var buffered := buffer;
      buffer := [];
      ReplayBacklog(buffered);
    }
  }
}
