/** The growable byte buffer that all emitters append to. */
module Buffers {
  import opened Words
  import opened Leb

  const U32_MAX := TWO32 - 1

  class Buffer {
    var data: array<Byte>
    var len: nat
    const maxLen: nat

    ghost predicate Valid()
      reads this
    {
      len <= data.Length <= Ceiling()
    }

    ghost function Contents(): (s: seq<Byte>)
      requires Valid()
      reads this, data
    {
      data[..len]
    }

    /** No buffer that stays within the limit is ever refused. */
    function Limit(): nat {
      if maxLen == 0 || maxLen > U32_MAX then U32_MAX else maxLen
    }

    /** Room that a larger array happens to have is used too, so more than the limit may be held; but
        arrays only grow on the way to the limit, by doubling. */
    function Ceiling(): (c: nat)
      ensures 256 <= c <= U32_MAX && Limit() <= c
    {
      if maxLen == 0 || 2 * maxLen > U32_MAX then U32_MAX else if maxLen < 128 then 256 else 2 * maxLen
    }

    constructor (limit: nat)
      ensures Valid() && fresh(data) && Contents() == [] && maxLen == limit
    {
      data := new Byte[0];
      len := 0;
      maxLen := limit;
    }

    /** Makes room for `extra` more bytes, moving to a larger array when the present one is full. */
    method Reserve(extra: nat) returns (ok: bool)
      requires Valid()
      modifies this`data
      ensures Valid() && len == old(len) && Contents() == old(Contents())
      ensures data == old(data) || fresh(data)
      ensures ok <==>
        len + extra <= U32_MAX && (len + extra <= old(data.Length) || maxLen == 0 || len + extra <= maxLen)
      ensures ok ==> len + extra <= data.Length
      ensures ok && data != old(data) ==>
        data.Length == 256 || data.Length < 2 * (len + extra) || data.Length == old(data.Length)
    {
      if len > U32_MAX || U32_MAX - len < extra {
        return false;
      }
      var need := len + extra;
      if need <= data.Length {
        return true;
      }
      if maxLen != 0 && need > maxLen {
        return false;
      }
      var target := if data.Length >= 256 then data.Length else 256;
      while target < need
        invariant 256 <= target <= U32_MAX
        invariant target == 256 || target < 2 * need || target == data.Length
        decreases need - target
      {
        if target > U32_MAX / 2 {
          target := need;
          break;
        }
        target := target * 2;
      }
      var bigger := new Byte[target];
      var i := 0;
      while i < len
        invariant 0 <= i <= len
        invariant bigger[..i] == data[..i]
        modifies bigger
      {
        bigger[i] := data[i];
        i := i + 1;
      }
      data := bigger;
      return true;
    }

    method AppendByte(b: Byte) returns (ok: bool)
      requires Valid()
      modifies this, data
      ensures Valid() && (data == old(data) || fresh(data))
      ensures Contents() == if ok then old(Contents()) + [b] else old(Contents())
      ensures !ok ==> old(len) + 1 > Limit()
    {
      ok := Reserve(1);
      if ok {
        data[len] := b;
        len := len + 1;
      }
    }

    method AppendBytes(bs: seq<Byte>) returns (ok: bool)
      requires Valid()
      modifies this, data
      ensures Valid() && (data == old(data) || fresh(data))
      ensures Contents() == if ok then old(Contents()) + bs else old(Contents())
      ensures !ok ==> old(len) + |bs| > Limit()
    {
      if |bs| == 0 {
        return true;
      }
      ok := Reserve(|bs|);
      if ok {
        ghost var before := Contents();
        var i := 0;
        while i < |bs|
          invariant 0 <= i <= |bs| && len + |bs| <= data.Length
          invariant data[..len] == before && data[len..len + i] == bs[..i]
          modifies data
        {
          data[len + i] := bs[i];
          i := i + 1;
        }
        len := len + |bs|;
        assert data[..len] == before + bs;
      }
    }

    /** `do { ... } while (v != 0)`: seven bits at a time, lowest first. */
    method AppendUleb(u: nat) returns (ok: bool)
      requires Valid() && u < TWO32
      modifies this, data
      ensures Valid() && (data == old(data) || fresh(data))
      ensures ok ==> Contents() == old(Contents()) + Uleb(u)
      ensures !ok ==> old(Contents()) <= Contents() && old(len) + |Uleb(u)| > Limit()
    {
      hide Uleb, Ceiling;
      var v: nat := u;
      var more := true;
      ghost var before := Contents();
      ghost var written: seq<Byte> := [];
      while more
        invariant Valid() && (data == old(data) || fresh(data))
        invariant Contents() == before + written
        invariant Uleb(u) == written + if more then Uleb(v) else []
        decreases more, v
      {
        UlebTurn(v);
        var byte: Byte := v % 128;
        v := v / 128;
        if v != 0 {
          byte := byte + 128;
        }
        more := v != 0;
        Regroup(before, written, byte, if more then Uleb(v) else []);
        ok := AppendByte(byte);
        if !ok {
          return false;
        }
        written := written + [byte];
      }
      return true;
    }

    /** The same for signed integers, with an arithmetic shift. */
    method AppendSleb(c: int) returns (ok: bool)
      requires Valid() && -TWO63 <= c < TWO63
      modifies this, data
      ensures Valid() && (data == old(data) || fresh(data))
      ensures ok ==> Contents() == old(Contents()) + Sleb(c)
      ensures !ok ==> old(Contents()) <= Contents() && old(len) + |Sleb(c)| > Limit()
    {
      hide Sleb, Ceiling;
      var v := c;
      var more := true;
      ghost var before := Contents();
      ghost var written: seq<Byte> := [];
      while more
        invariant Valid() && (data == old(data) || fresh(data))
        invariant Contents() == before + written
        invariant Sleb(c) == written + if more then Sleb(v) else []
        decreases more, if v < 0 then -v else v
      {
        var byte;
        byte, v, more := SplitSleb(v);
        Regroup(before, written, byte, if more then Sleb(v) else []);
        ok := AppendByte(byte);
        if !ok {
          return false;
        }
        written := written + [byte];
      }
      return true;
    }
  }

  /** The next byte of a signed integer, what is left of it, and whether that is anything. */
  method SplitSleb(v: int) returns (byte: Byte, rest: int, more: bool)
    ensures Sleb(v) == [byte] + if more then Sleb(rest) else []
    ensures more ==> (if rest < 0 then -rest else rest) < if v < 0 then -v else v
  {
    hide Sleb;
    SlebTurn(v);
    var low := v % 128;
    var sign := low >= 64;
    rest := v / 128;
    more := !((rest == 0 && !sign) || (rest == -1 && sign));
    byte := if more then low + 128 else low;
  }

  /** One turn of the unsigned loop. */
  lemma UlebTurn(v: nat)
    ensures var next := v / 128;
      Uleb(v) == [if next != 0 then v % 128 + 128 else v % 128] + (if next != 0 then Uleb(next) else [])
    ensures v / 128 != 0 ==> v / 128 < v
  {
  }

  /** One turn of the signed loop. */
  lemma SlebTurn(v: int)
    ensures var low, next := v % 128, v / 128; var more := !((next == 0 && low < 64) || (next == -1 && low >= 64));
      && Sleb(v) == [if more then low + 128 else low] + (if more then Sleb(next) else [])
      && (more ==> (if next < 0 then -next else next) < if v < 0 then -v else v)
  {
  }

  lemma Regroup(before: seq<Byte>, written: seq<Byte>, byte: Byte, rest: seq<Byte>)
    ensures written + ([byte] + rest) == (written + [byte]) + rest
    ensures before + written + [byte] == before + (written + [byte])
    ensures |written + ([byte] + rest)| >= |written| + 1
  {
  }
}
