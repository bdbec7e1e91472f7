/** The in-memory OTP limiter: a sliding log of grant times per key, compacted in
    place on every call.  Times are integer nanoseconds. */
module SlidingWindow {
  import opened Basics

  // ---------------------------------------------------------------------------
  // One call, as a function of the stored log
  // ---------------------------------------------------------------------------

  /** The entries strictly after the cutoff, in their original order. */
  function Recent(entries: seq<int>, cutoff: int): (r: seq<int>)
    ensures |r| <= |entries|
    ensures forall t :: t in r ==> t > cutoff
  {
    if entries == [] then []
    else
      var front := Recent(entries[..|entries| - 1], cutoff);
      var last := entries[|entries| - 1];
      if last > cutoff then front + [last] else front
  }

  datatype Verdict = Verdict(granted: bool, entries: seq<int>)

  function Decide(entries: seq<int>, window: int, max: int, now: int): Verdict {
    var kept := Recent(entries, now - window);
    if |kept| >= max then Verdict(false, kept) else Verdict(true, kept + [now])
  }

  type Log = map<string, seq<int>>

  function EntriesOf(log: Log, key: string): seq<int> {
    if key in log then log[key] else []
  }

  // ---------------------------------------------------------------------------
  // The limiter object: slices share backing arrays, as in the source
  // ---------------------------------------------------------------------------

  /** A slice: the first `len` cells of a backing array whose length is the capacity. */
  datatype Slice = Slice(buf: array<int>, len: nat) {
    predicate Fits() { len <= buf.Length }

    ghost function View(): seq<int>
      requires Fits()
      reads buf
    { buf[..len] }
  }

  /** Appends in the spare capacity when there is some, otherwise in a larger fresh array. */
  method Append(s: Slice, x: int) returns (r: Slice)
    requires s.Fits()
    modifies s.buf
    ensures r.Fits() && r.View() == old(s.View()) + [x]
    ensures s.len < s.buf.Length ==> r.buf == s.buf
    ensures s.len == s.buf.Length ==> fresh(r.buf)
    ensures forall i :: 0 <= i < s.buf.Length && i != s.len ==> s.buf[i] == old(s.buf[i])
  {
    if s.len < s.buf.Length {
      s.buf[s.len] := x;
      return Slice(s.buf, s.len + 1);
    }
    var bigger := new int[2 * s.len + 1];
    for i := 0 to s.len
      invariant forall j :: 0 <= j < i ==> bigger[j] == s.buf[j]
      invariant s.buf[..] == old(s.buf[..])
    {
      bigger[i] := s.buf[i];
    }
    bigger[s.len] := x;
    return Slice(bigger, s.len + 1);
  }

  /** The compaction loop: `kept` starts as the empty prefix of the same backing array
      and grows over cells that have already been read. */
  method Compact(entries: Slice, cutoff: int) returns (kept: Slice)
    requires entries.Fits()
    modifies entries.buf
    ensures kept.buf == entries.buf && kept.Fits()
    ensures kept.View() == Recent(old(entries.View()), cutoff)
  {
    ghost var was := entries.View();
    kept := Slice(entries.buf, 0);
    var i := 0;
    while i < entries.len
      invariant 0 <= kept.len <= i <= entries.len <= entries.buf.Length
      invariant kept.buf == entries.buf
      invariant kept.View() == Recent(was[..i], cutoff)
      invariant forall j :: i <= j < entries.len ==> entries.buf[j] == was[j]
    {
      var ts := entries.buf[i];
      assert was[..i + 1][..i] == was[..i];
      if ts > cutoff {
        kept := Append(kept, ts);
      }
      i := i + 1;
    }
    assert was[..i] == was;
  }

  /** A nil slice: no cells and no capacity. */
  method EmptySlice() returns (s: Slice)
    ensures s.Fits() && fresh(s.buf) && s.View() == []
  {
    var none := new int[0];
    s := Slice(none, 0);
  }

  /** Compaction followed by the admission test; the result lives in the given array or in a fresh one. */
  method Admit(entries: Slice, window: int, max: int, now: int) returns (ok: bool, kept: Slice)
    requires entries.Fits()
    modifies entries.buf
    ensures kept.Fits() && (kept.buf == entries.buf || fresh(kept.buf))
    ensures Verdict(ok, kept.View()) == Decide(old(entries.View()), window, max, now)
  {
    kept := Compact(entries, now - window);
    if kept.len >= max {
      return false, kept;
    }
    kept := Append(kept, now);
    return true, kept;
  }

  /** The slice fits its array and holds these entries. */
  ghost predicate Shows(s: Slice, entries: seq<int>)
    reads s.buf
  { s.Fits() && s.View() == entries }

  /** Every slice shows its key's entries, and no two keys share an array. */
  ghost predicate Consistent(hits: map<string, Slice>, log: Log, arrays: set<array<int>>)
    reads arrays
  {
    && log.Keys == hits.Keys
    && (forall k :: k in hits ==> hits[k].buf in arrays && Shows(hits[k], log[k]))
    && (forall k, l :: k in hits && l in hits && k != l ==> hits[k].buf != hits[l].buf)
  }

  /** What holds of the other keys' slices carries over to the map in which one key's slice is replaced. */
  lemma ConsistentAfter(hits: map<string, Slice>, log: Log, arrays: set<array<int>>, key: string, kept: Slice)
    requires log.Keys == hits.Keys && kept.Fits()
    requires forall k :: k in hits && k != key ==> hits[k].buf in arrays && hits[k].buf != kept.buf && Shows(hits[k], log[k])
    requires forall k, l :: k in hits && l in hits && k != l ==> hits[k].buf != hits[l].buf
    ensures Consistent(hits[key := kept], log[key := kept.View()], arrays + {kept.buf})
  {
  }

  class OtpRateLimiter {
    const window: int
    const max: int
    var hits: map<string, Slice>
    ghost var log: Log                // the contents of every slice
    ghost var Repr: set<array<int>>   // the arrays behind them

    ghost predicate Valid()
      reads this, Repr
    { window > 0 && max > 0 && Consistent(hits, log, Repr) }

    constructor (window: int, max: int)
      ensures Valid() && Repr == {} && log == map[]
      ensures this.max == if max <= 0 then 1 else max
      ensures this.window == if window <= 0 then MINUTE else window
    {
      this.max := if max <= 0 then 1 else max;
      this.window := if window <= 0 then MINUTE else window;
      hits, log, Repr := map[], map[], {};
    }

    method Allow(key: string, now: int) returns (ok: bool)
      requires Valid()
      modifies this, Repr
      ensures Valid() && fresh(Repr - old(Repr))
      ensures var verdict := Decide(EntriesOf(old(log), key), window, max, now);
              ok == verdict.granted && log == old(log)[key := verdict.entries]
    {
      hide Decide;
      var entries := EmptySlice();
      if key in hits {
        entries := hits[key];
        assert entries.buf in Repr && Shows(entries, log[key]);
      }
      var kept;
      ok, kept := Admit(entries, window, max, now);
      ConsistentAfter(hits, log, Repr, key, kept);
      hits, log, Repr := hits[key := kept], log[key := kept.View()], Repr + {kept.buf};
      hide Consistent;
    }
  }
}
