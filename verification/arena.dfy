/**
 The per-worker bump arena and the non-owning views handed out over it.
 A view points into the immutable packet, into the arena, or (when empty) anywhere.
 */
module Memory {
  import opened Text

  const ARENA_CAPACITY: nat := 64 * 1024

  datatype Home = Packet | Arena | Elsewhere

  datatype Slice = Null | View(home: Home, off: nat, len: nat) {

    /** The view stays inside what exists: the packet, or the bytes the arena handed out. */
    predicate InBounds(packetLen: nat, used: nat) {
      View? ==>
        match home
        case Packet => off + len <= packetLen
        case Arena => off + len <= used
        case Elsewhere => len == 0
    }

    /** The bytes seen through the view; a null view reads as the empty string. */
    function Read(packet: string, bytes: string): (s: string)
      requires InBounds(|packet|, |bytes|)
      ensures View? ==> |s| == len
    {
      if Null? then ""
      else
        match home
        case Packet => packet[off..off + len]
        case Arena => bytes[off..off + len]
        case Elsewhere => ""
    }
  }

  /** Arena accounting of `dup`: empty text is free, otherwise it must fit. */
  predicate Fits(used: nat, n: nat) {
    used + n <= ARENA_CAPACITY
  }

  /** Views handed out earlier read the same bytes after the arena grows. */
  lemma {:induction false} ReadStable(v: Slice, packet: string, bytes: string, more: string)
    requires v.InBounds(|packet|, |bytes|)
    ensures v.InBounds(|packet|, |bytes + more|)
    ensures v.Read(packet, bytes + more) == v.Read(packet, bytes)
  {
    if v.View? && v.home == Arena {
      assert (bytes + more)[v.off..v.off + v.len] == bytes[v.off..v.off + v.len];
    }
  }

  class HmrArena {
    const buffer: array<char>
    var used: nat

    ghost predicate Valid()
      reads this
    {
      buffer.Length == ARENA_CAPACITY && used <= ARENA_CAPACITY
    }

    /** Every byte handed out since the last reset, in order. */
    function Bytes(): (s: string)
      requires Valid()
      reads this, buffer
      ensures |s| == used
    {
      buffer[..used]
    }

    constructor ()
      ensures Valid() && fresh(buffer) && used == 0
    {
      buffer := new char[ARENA_CAPACITY];
      used := 0;
    }

    method Reset()
      requires Valid()
      modifies this`used
      ensures Valid() && used == 0
    {
      used := 0;
    }

    /** Hands out the next `n` bytes, or None (and no change) when they do not fit. */
    method Alloc(n: nat) returns (p: Option<nat>)
      requires Valid()
      modifies this`used
      ensures Valid()
      ensures p == if Fits(old(used), n) then Some(old(used)) else None
      ensures used == old(used) + if p.Some? then n else 0
    {
      if n > ARENA_CAPACITY - used {
        return None;
      }
      p := Some(used);
      used := used + n;
    }

    /** Copies `s` to offset `at`; bytes elsewhere keep their value. */
    method Write(at: nat, s: string)
      requires Valid() && at + |s| <= used
      modifies buffer
      ensures buffer[..at + |s|] == old(buffer[..at]) + s
      ensures buffer[at + |s|..] == old(buffer[at + |s|..])
    {
      for k := 0 to |s|
        invariant buffer[..at + k] == old(buffer[..at]) + s[..k]
        invariant forall j :: at + k <= j < buffer.Length ==> buffer[j] == old(buffer[j])
      {
        buffer[at + k] := s[k];
      }
    }

    /** Copies a text into the arena; bytes already handed out keep their value. */
    method Dup(s: string) returns (r: Slice)
      requires Valid()
      modifies this`used, buffer
      ensures Valid()
      ensures r.Null? <==> s != "" && !Fits(old(used), |s|)
      ensures Bytes() == old(Bytes()) + if r.Null? then "" else s
      ensures r.InBounds(0, used) && (r.View? ==> r.Read("", Bytes()) == s)
    {
      if s == "" {
        return View(Elsewhere, 0, 0);
      }
      ghost var before := Bytes();
      var p := Alloc(|s|);
      if p.None? {
        return Null;
      }
      Write(p.value, s);
      r := View(Arena, p.value, |s|);
      assert Bytes() == before + s;
    }
  }
}
