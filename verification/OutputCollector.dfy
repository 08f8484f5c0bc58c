/** The capped collector for the two output streams of a command. */
module OutputCollectors {
  import opened Common
  import opened Options

  function Concat(chunks: seq<Bytes>): Bytes {
    if chunks == [] then [] else Concat(chunks[..|chunks| - 1]) + chunks[|chunks| - 1]
  }

  /** One stream: the chunks kept, their total size, and whether anything was dropped. */
  datatype Capture = Capture(chunks: seq<Bytes>, size: nat, truncated: bool)

  /** The capture of everything in `all`: its first `max` bytes, flagged exactly if there were more. */
  ghost predicate Holds(c: Capture, all: Bytes, max: nat) {
    && c.size == Min(max, |all|)
    && Concat(c.chunks) == all[..c.size]
    && (c.truncated <==> |all| > max)
  }

  /** The stream of everything that arrived on one side. */
  function Arrived(chunks: seq<Option<Bytes>>): Bytes {
    if chunks == [] then []
    else
      Arrived(chunks[..|chunks| - 1]) + match chunks[|chunks| - 1] case None => [] case Some(chunk) => chunk
  }

  function Firsts(events: seq<(Option<Bytes>, Option<Bytes>)>): seq<Option<Bytes>> {
    seq(|events|, i requires 0 <= i < |events| => events[i].0)
  }

  function Seconds(events: seq<(Option<Bytes>, Option<Bytes>)>): seq<Option<Bytes>> {
    seq(|events|, i requires 0 <= i < |events| => events[i].1)
  }

  lemma OneMoreArrived(chunks: seq<Option<Bytes>>, i: nat)
    requires i < |chunks|
    ensures Arrived(chunks[..i + 1]) == Arrived(chunks[..i]) + match chunks[i] case None => [] case Some(chunk) => chunk
  {
    assert chunks[..i + 1][..i] == chunks[..i];
  }

  lemma NothingArrived(chunks: seq<Option<Bytes>>, i: nat)
    requires i < |chunks| && (chunks[i].None? || chunks[i].value == [])
    ensures Arrived(chunks[..i + 1]) == Arrived(chunks[..i])
  {
    OneMoreArrived(chunks, i);
  }

  /** A chunk that is cut to the room left keeps a capture a capture. */
  lemma Kept(c: Capture, all: Bytes, chunk: Bytes, max: nat)
    requires Holds(c, all, max) && c.size < max
    ensures var room := max - c.size;
            var part := if |chunk| <= room then chunk else chunk[..room];
            Holds(Capture(c.chunks + [part], c.size + Min(|chunk|, room), c.truncated || |chunk| > room), all + chunk, max)
  {
    var room := max - c.size;
    var part := if |chunk| <= room then chunk else chunk[..room];
    assert (c.chunks + [part])[..|c.chunks|] == c.chunks;
    assert all[..c.size] == all;
    assert all + part == (all + chunk)[..c.size + Min(|chunk|, room)];
  }

  class OutputCollector {
    const max: nat
    var stdout: seq<Bytes>
    var stderr: seq<Bytes>
    var stdoutSize: nat
    var stderrSize: nat
    var stdoutTruncated: bool
    var stderrTruncated: bool

    ghost function Stdout(): Capture
      reads this
    {
      Capture(stdout, stdoutSize, stdoutTruncated)
    }

    ghost function Stderr(): Capture
      reads this
    {
      Capture(stderr, stderrSize, stderrTruncated)
    }

    constructor (maxBytes: nat)
      ensures max == maxBytes && Holds(Stdout(), [], max) && Holds(Stderr(), [], max)
    {
      max := maxBytes;
      stdout, stderr, stdoutSize, stderrSize, stdoutTruncated, stderrTruncated := [], [], 0, 0, false, false;
    }

    method AddStdout(chunk: Bytes)
      modifies this`stdout, this`stdoutSize, this`stdoutTruncated
      ensures forall all :: chunk != [] && Holds(old(Stdout()), all, max) ==> Holds(Stdout(), all + chunk, max)
      ensures chunk == [] ==>
                Concat(stdout) == Concat(old(stdout)) && stdoutSize == old(stdoutSize) &&
                stdoutTruncated == (old(stdoutTruncated) || old(stdoutSize) >= max)
    {
      ghost var so := Stdout();
      if stdoutSize >= max {
        stdoutTruncated := true;
        return;
      }
      var room := max - stdoutSize;
      forall all | Holds(so, all, max)
        ensures Holds(Capture(so.chunks + [if |chunk| <= room then chunk else chunk[..room]], so.size + Min(|chunk|, room),
                              so.truncated || |chunk| > room), all + chunk, max)
      {
        Kept(so, all, chunk, max);
      }
      var part := if |chunk| <= room then chunk else chunk[..room];
      assert (stdout + [part])[..|stdout|] == stdout;
      stdout := stdout + [part];
      stdoutSize := stdoutSize + Min(|chunk|, room);
      if |chunk| > room { stdoutTruncated := true; }
    }

    method AddStderr(chunk: Bytes)
      modifies this`stderr, this`stderrSize, this`stderrTruncated
      ensures forall all :: chunk != [] && Holds(old(Stderr()), all, max) ==> Holds(Stderr(), all + chunk, max)
      ensures chunk == [] ==>
                Concat(stderr) == Concat(old(stderr)) && stderrSize == old(stderrSize) &&
                stderrTruncated == (old(stderrTruncated) || old(stderrSize) >= max)
    {
      ghost var so := Stderr();
      if stderrSize >= max {
        stderrTruncated := true;
        return;
      }
      var room := max - stderrSize;
      forall all | Holds(so, all, max)
        ensures Holds(Capture(so.chunks + [if |chunk| <= room then chunk else chunk[..room]], so.size + Min(|chunk|, room),
                              so.truncated || |chunk| > room), all + chunk, max)
      {
        Kept(so, all, chunk, max);
      }
      var part := if |chunk| <= room then chunk else chunk[..room];
      assert (stderr + [part])[..|stderr|] == stderr;
      stderr := stderr + [part];
      stderrSize := stderrSize + Min(|chunk|, room);
      if |chunk| > room { stderrTruncated := true; }
    }

    /** Draining the exec stream into a fresh collector: empty chunks are not passed on, so each side holds exactly its first
        `max` bytes, whatever the chunks and however the two sides were interleaved. */
    method Pump(events: seq<(Option<Bytes>, Option<Bytes>)>)
      requires Holds(Stdout(), [], max) && Holds(Stderr(), [], max)
      modifies this
      ensures Holds(Stdout(), Arrived(Firsts(events)), max)
      ensures Holds(Stderr(), Arrived(Seconds(events)), max)
    {
      ghost var firsts, seconds := Firsts(events), Seconds(events);
      for i := 0 to |events|
        invariant Holds(Stdout(), Arrived(firsts[..i]), max)
        invariant Holds(Stderr(), Arrived(seconds[..i]), max)
      {
        OneMoreArrived(firsts, i);
        OneMoreArrived(seconds, i);
        var (out, err) := events[i];
        if out.Some? && out.value != [] {
          AddStdout(out.value);
        } else {
          NothingArrived(firsts, i);
        }
        if err.Some? && err.value != [] {
          AddStderr(err.value);
        } else {
          NothingArrived(seconds, i);
        }
      }
      assert firsts[..|events|] == firsts && seconds[..|events|] == seconds;
    }
  }
}
