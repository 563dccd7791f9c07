/**
 * Rewriting an account config in place.  The file keeps its inode, so the
 * write is neither atomic nor all-or-nothing; readers may look at any moment.
 */
module ConfigFile {
  type Byte = bv8

  const NEWLINE: Byte := 10

  datatype Outcome = Done | Failed

  datatype Update = Unchanged | Updated | RestoredPrevious | RestoreFailed

  function Padding(n: nat): (s: seq<Byte>)
    ensures |s| == n && forall i :: 0 <= i < n ==> s[i] == NEWLINE
  {
    seq(n, i => NEWLINE)
  }

  /** What a write of the payload over a file of the old size puts into it. */
  function Padded(payload: seq<Byte>, oldSize: nat): seq<Byte> {
    if |payload| < oldSize then payload + Padding(oldSize - |payload|) else payload
  }

  /** The payload with nothing but newlines after it. */
  ghost predicate PayloadAndNewlines(content: seq<Byte>, payload: seq<Byte>) {
    payload <= content && forall i :: |payload| <= i < |content| ==> content[i] == NEWLINE
  }

  /** A write that stopped after n bytes. */
  function Overwritten(content: seq<Byte>, data: seq<Byte>, n: nat): seq<Byte>
    requires n <= |data|
  {
    data[..n] + if n < |content| then content[n..] else []
  }

  class File {
    var content: seq<Byte>
    /** Every content a reader could have seen, in order. */
    ghost var visible: seq<seq<Byte>>

    constructor (content: seq<Byte>)
      ensures this.content == content && visible == [content]
    {
      this.content := content;
      visible := [content];
    }

    /** Writes any number of bytes from the start, and may report an error even so. */
    method WriteAt(data: seq<Byte>) returns (n: nat, o: Outcome)
      modifies this
      ensures n <= |data| && content == Overwritten(old(content), data, n)
      ensures visible == old(visible) + [content]
    {
      n :| n <= |data|;
      content := Overwritten(content, data, n);
      visible := visible + [content];
      if * { o := Done; } else { o := Failed; }
    }

    method Truncate(size: nat) returns (o: Outcome)
      requires size <= |content|
      modifies this
      ensures content == if o.Done? then old(content)[..size] else old(content)
      ensures visible == old(visible) + [content]
    {
      if * {
        content := content[..size];
        o := Done;
      } else {
        o := Failed;
      }
      visible := visible + [content];
    }

    method Sync() returns (o: Outcome)
    {
      if * { o := Done; } else { o := Failed; }
    }

    /**
     * Overwrite, then cut.  Once the write is complete, all that a reader can
     * see is the payload and newlines.
     */
    method Replace(payload: seq<Byte>, oldSize: nat) returns (o: Outcome)
      requires |content| <= oldSize || |content| <= |payload|
      modifies this
      ensures o.Done? ==> content == payload
      ensures |content| <= (if |payload| < oldSize then oldSize else |payload|)
      ensures old(visible) <= visible && |old(visible)| < |visible| <= |old(visible)| + 2
      ensures forall i :: |old(visible)| <= i < |visible| ==>
        i == |old(visible)| || PayloadAndNewlines(visible[i], payload)
      ensures o.Done? ==> PayloadAndNewlines(visible[|old(visible)|], payload)
    {
      var data := Padded(payload, oldSize);
      var n;
      n, o := WriteAt(data);
      if o.Done? && n != |data| {
        o := Failed;
      }
      if o.Done? {
        assert content == data;
        o := Truncate(|payload|);
      }
      if o.Done? {
        o := Sync();
      }
    }

    /** A failed update is compensated by writing the previous content back. */
    method UpdateContents(previous: seq<Byte>, payload: seq<Byte>) returns (r: Update)
      requires content == previous
      modifies this
      ensures !r.Unchanged?
      ensures r.Updated? ==> content == payload
      ensures r.RestoredPrevious? ==> content == previous
    {
      var o := Replace(payload, |previous|);
      if o.Done? {
        r := Updated;
      } else {
        o := Replace(previous, if |previous| < |payload| then |payload| else |previous|);
        r := if o.Done? then RestoredPrevious else RestoreFailed;
      }
    }

    /** The same payload writes nothing, so the watcher sees no event. */
    method WriteAccountConfig(payload: seq<Byte>) returns (r: Update)
      modifies this
      ensures r.Unchanged? <==> old(content) == payload
      ensures r.Unchanged? ==> content == old(content) && visible == old(visible)
      ensures r.Updated? ==> content == payload
      ensures r.RestoredPrevious? ==> content == old(content)
    {
      var previous := content;
      if previous == payload {
        r := Unchanged;
      } else {
        r := UpdateContents(previous, payload);
      }
    }
  }

  /** Had the old suffix not been padded, a complete write would still show it. */
  lemma PaddingIsNeeded(content: seq<Byte>, payload: seq<Byte>)
    requires |payload| < |content|
    ensures PayloadAndNewlines(Overwritten(content, payload, |payload|), payload) <==>
      forall i :: |payload| <= i < |content| ==> content[i] == NEWLINE
    ensures PayloadAndNewlines(Overwritten(content, Padded(payload, |content|), |Padded(payload, |content|)|), payload)
  {
    var plain := Overwritten(content, payload, |payload|);
    assert plain == payload + content[|payload|..];
    assert forall i :: |payload| <= i < |content| ==> plain[i] == content[i];
  }
}
