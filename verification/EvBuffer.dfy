/** The growable byte buffer under every connection (port/mini_event.c, `evbuffer_*`). */
module EvBuffer {
  import opened Bytes

  const INIT_CAP := 4096

  /** `what` lies at position `i` of `s`. */
  predicate OccursAt(s: Bytes, what: Bytes, i: nat) {
    i + |what| <= |s| && s[i..i + |what|] == what
  }

  /** A capacity after `k` doublings. */
  function Doubled(cap: nat, k: nat): nat {
    if k == 0 then cap else 2 * Doubled(cap, k - 1)
  }

  class EvBuffer {
    var data: array<Byte>
    var len: nat

    ghost predicate Valid()
      reads this
    {
      len <= data.Length
    }

    ghost function Contents(): Bytes
      requires Valid()
      reads this, data
    {
      data[..len]
    }

    constructor ()
      ensures Valid() && fresh(data) && Contents() == [] && data.Length == 0
    {
      data, len := new Byte[0], 0;
    }

    /** `evbuffer_reserve`: room for `need` more bytes, by doubling as often as it takes and no oftener. */
    method Reserve(need: nat) returns (ghost k: nat)
      requires Valid()
      modifies this`data
      ensures Valid() && Contents() == old(Contents()) && len + need <= data.Length
      ensures data == old(data) || fresh(data)
      ensures data == old(data) <==> len + need <= old(data.Length)
      ensures data != old(data) ==>
                var cap := if old(data.Length) == 0 then INIT_CAP else old(data.Length);
                data.Length == Doubled(cap, k) && (k > 0 ==> Doubled(cap, k - 1) < len + need)
    {
      k := 0;
      if len + need <= data.Length {
        return;
      }
      var cap := if data.Length != 0 then data.Length else INIT_CAP;
      var ncap := cap;
      while ncap < len + need
        invariant ncap > 0 && ncap == Doubled(cap, k)
        invariant k > 0 ==> Doubled(cap, k - 1) < len + need
        decreases len + need - ncap
      {
        ncap := ncap * 2;
        k := k + 1;
      }
      var nd := new Byte[ncap](_ => 0);
      forall i | 0 <= i < len {
        nd[i] := data[i];
      }
      assert nd[..len] == data[..len];
      data := nd;
    }

    method Add(bytes: Bytes)
      requires Valid()
      modifies this, data
      ensures Valid() && Contents() == old(Contents()) + bytes
      ensures data == old(data) || fresh(data)
    {
      ghost var _ := Reserve(|bytes|);
      ghost var before := data[..len];
      forall i | 0 <= i < |bytes| {
        data[len + i] := bytes[i];
      }
      assert data[..len] == before;
      len := len + |bytes|;
      assert data[..len] == before + bytes;
    }

    method Prepend(bytes: Bytes)
      requires Valid()
      modifies this, data
      ensures Valid() && Contents() == bytes + old(Contents())
      ensures data == old(data) || fresh(data)
    {
      if |bytes| == 0 {
        assert bytes + Contents() == Contents();
        return;
      }
      ghost var _ := Reserve(|bytes|);
      ghost var before := data[..len];
      ShiftUp(|bytes|);
      forall i | 0 <= i < |bytes| {
        data[i] := bytes[i];
      }
      len := len + |bytes|;
      forall i | 0 <= i < len
        ensures data[i] == (bytes + before)[i]
      {
      }
      assert data[..len] == bytes + before;
    }

    /** `memmove` towards the end. */
    method ShiftUp(n: nat)
      requires Valid() && len + n <= data.Length
      modifies data
      ensures forall i :: 0 <= i < len ==> data[n + i] == old(data[i])
    {
      forall i | 0 <= i < len {
        data[n + i] := data[i];
      }
    }

    /** `evbuffer_drain` */
    method Drain(count: nat)
      requires Valid()
      modifies this`len, data
      ensures Valid() && Contents() == old(Contents())[Min(count, |old(Contents())|)..]
    {
      var n := Min(count, len);
      ghost var before := data[..len];
      forall i | 0 <= i < len - n {
        data[i] := data[i + n];
      }
      len := len - n;
      assert data[..len] == before[n..];
    }

    /** `evbuffer_remove` */
    method Remove(count: nat) returns (bytes: Bytes)
      requires Valid()
      modifies this`len, data
      ensures Valid() && bytes + Contents() == old(Contents()) && |bytes| == Min(count, |old(Contents())|)
    {
      var n := Min(count, len);
      bytes := data[..n];
      Drain(n);
      assert bytes + data[..len] == old(data[..len]);
    }

    /** `evbuffer_add_buffer` */
    method AddBuffer(src: EvBuffer) returns (ok: bool)
      requires Valid() && src.Valid() && (src != this ==> src.data != data)
      modifies this, data, src`len
      ensures Valid() && src.Valid() && (ok <==> src != this)
      ensures if ok then Contents() == old(Contents()) + old(src.Contents()) && src.Contents() == []
              else Contents() == old(Contents())
      ensures (data == old(data) || fresh(data)) && src.data == (if ok then old(src.data) else data)
    {
      if src == this {
        return false;
      }
      if src.len == 0 {
        assert Contents() + src.Contents() == Contents();
        return true;
      }
      Add(src.data[..src.len]);
      src.len := 0;
      return true;
    }

    /** `evbuffer_remove_buffer` on distinct buffers, moving from this one to `dst`. */
    method MoveTo(dst: EvBuffer, count: nat) returns (moved: nat)
      requires Valid() && dst.Valid() && dst != this && dst.data != data
      modifies this`len, data, dst, dst.data
      ensures Valid() && dst.Valid() && moved == Min(count, |old(Contents())|)
      ensures dst.Contents() == old(dst.Contents()) + old(Contents())[..moved]
      ensures Contents() == old(Contents())[moved..]
      ensures data == old(data) && (dst.data == old(dst.data) || fresh(dst.data))
    {
      var n := Min(count, len);
      if n == 0 {
        assert dst.Contents() + Contents()[..0] == dst.Contents();
        return 0;
      }
      var head := data[..n];
      assert head == Contents()[..n];
      dst.Add(head);
      Drain(n);
      return n;
    }

    /** `evbuffer_search`: the first occurrence at or behind `start`, or -1. */
    method Search(what: Bytes, start: nat) returns (pos: int)
      requires Valid()
      ensures pos == -1 || (0 <= start <= pos && what != [] && OccursAt(Contents(), what, pos))
      ensures pos >= 0 ==> forall i :: start <= i < pos ==> !OccursAt(Contents(), what, i)
      ensures pos == -1 && what != [] ==> forall i :: start <= i ==> !OccursAt(Contents(), what, i)
    {
      if |what| == 0 {
        return -1;
      }
      var n := |what|;
      if len >= n && start <= len - n {
        var i := start;
        while i + n <= len
          invariant start <= i
          invariant forall j :: start <= j < i ==> !OccursAt(Contents(), what, j)
          decreases len - i
        {
          assert Contents()[i..i + n] == data[i..i + n];
          if data[i..i + n] == what {
            return i;
          }
          i := i + 1;
        }
      }
      return -1;
    }
  }
}
