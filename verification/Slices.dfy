/** The limiter's slices in internal/community/store.go: a participant's stamps are filtered
    inside the array they are stored in, while the stored slice still spans it. */
module Slices {
  import opened Clock
  import opened Community

  /** A slice over its backing array. Writes through one slice show in every other. */
  datatype Slice = Slice(mem: seq<int>, len: nat)

  predicate Framed(hits: map<string, Slice>) {
    forall id :: id in hits ==> hits[id].len <= |hits[id].mem|
  }

  function Contents(hits: map<string, Slice>): map<string, seq<int>>
    requires Framed(hits)
  {
    map id | id in hits :: hits[id].mem[..hits[id].len]
  }

  /** The filter of rateLimitLocked: the kept stamps are written to the front of the array
      they are read from. Where everything is kept, nothing moves. */
  method Filter(backing: seq<int>, len: nat, cut: int) returns (mem: seq<int>, kept: nat)
    requires len <= |backing|
    ensures |mem| == |backing| && kept <= len && mem[..kept] == After(backing[..len], cut)
    ensures kept == len ==> mem == backing
  {
    mem, kept := backing, 0;
    for i := 0 to len
      invariant |mem| == |backing| && kept <= i && mem[..kept] == After(backing[..i], cut)
      invariant forall k :: i <= k < |mem| ==> mem[k] == backing[k]
      invariant kept == i ==> mem == backing
    {
      var t := mem[i];
      assert backing[..i + 1] == backing[..i] + [t];
      if t > cut {
        mem := mem[kept := t];
        kept := kept + 1;
      }
    }
  }

  /** append(kept, now) into the array that kept lies in. */
  function Appended(mem: seq<int>, len: nat, now: int): (s: Slice)
    requires len <= |mem|
    ensures s.len <= |s.mem| && s.mem[..s.len] == mem[..len] + [now]
  {
    if len < |mem| then Slice(mem[len := now], len + 1) else Slice(mem + [now], len + 1)
  }

  /** What becomes of a participant's slice. A refusal has filtered its array and leaves its
      length; with at most thirty stamps that is no change at all. */
  method LimitSlice(slice: Slice, now: int) returns (limited: bool, stored: Slice)
    requires slice.len <= |slice.mem| && slice.len <= MAX_PUTS
    ensures stored.len <= |stored.mem|
    ensures limited == Limited(slice.mem[..slice.len], now).Refused?
    ensures limited ==> stored == slice && slice.len == MAX_PUTS
    ensures !limited ==> stored.mem[..stored.len] == Limited(slice.mem[..slice.len], now).hits
  {
    var mem, kept := Filter(slice.mem, slice.len, now - HOUR);
    if kept >= MAX_PUTS {
      return true, Slice(mem, slice.len);
    }
    if kept > 0 && now - mem[kept - 1] < MIN_GAP {
      return false, Slice(mem, kept);
    }
    return false, Appended(mem, kept, now);
  }

  lemma ContentsWithout(hits: map<string, Slice>, id: string)
    requires Framed(hits)
    ensures Framed(hits - {id}) && Contents(hits - {id}) == Contents(hits) - {id}
  {
  }
}
