/** The buffer chain: a list of IOBuffers read as one sequence of bytes. */
module BufferChains {
  import opened Framing
  import opened IOBuffers

  const BLOCK := 256 * 4 * 8

  /** An unconsumed buffer with this text. */
  ghost predicate Holds(b: IOBuffer, text: string)
    reads b, b.mem
  {
    b.Valid() && b.ptr == 0 && b.Data() == text
  }

  ghost predicate Separate(b: IOBuffer, c: IOBuffer) { b != c && b.mem != c.mem }

  ghost function Mems(chain: seq<IOBuffer>): set<array<char>> { set b <- chain :: b.mem }

  lemma {:induction false} FlatLast(texts: seq<string>, more: string)
    requires texts != []
    ensures Flat(texts[|texts| - 1 := texts[|texts| - 1] + more]) == Flat(texts) + more
  {
    var front, last := texts[..|texts| - 1], texts[|texts| - 1];
    assert texts == front + [last];
    assert texts[|texts| - 1 := last + more] == front + [last + more];
    FlatBack(front, last);
    FlatBack(front, last + more);
  }

  lemma FlatBack(texts: seq<string>, text: string)
    ensures Flat(texts + [text]) == Flat(texts) + text
  {
    FlatConcat(texts, [text]);
    assert |[text][1..]| == 0;
  }

  lemma SplitAt(texts: seq<string>, i: nat)
    requires i < |texts|
    ensures Flat(texts[..i + 1]) == Flat(texts[..i]) + texts[i]
    ensures |Flat(texts[..i + 1])| <= |Flat(texts)|
  {
    assert texts[..i + 1] == texts[..i] + [texts[i]];
    FlatBack(texts[..i], texts[i]);
    assert texts == texts[..i + 1] + texts[i + 1..];
    FlatConcat(texts[..i + 1], texts[i + 1..]);
  }

  lemma HoldsMeans(b: IOBuffer, text: string)
    requires Holds(b, text)
    ensures b.Valid() && b.ptr == 0 && b.remaining == |text| && b.SpaceLen() == b.capacity - |text|
  {
  }

  /** Adds bytes to an unconsumed buffer with space for them. */
  method Extend(b: IOBuffer, ghost text: string, bytes: string)
    requires Holds(b, text) && bytes != "" && |text| + |bytes| <= b.capacity
    modifies b`remaining, b.mem
    ensures Holds(b, text + bytes)
  {
    b.DataAdd(bytes);
  }

  /** A new buffer that holds the bytes. */
  method NewHolding(capacity: nat, bytes: string) returns (b: IOBuffer)
    requires bytes != "" && |bytes| <= capacity
    ensures Holds(b, bytes) && b.capacity == capacity && fresh(b) && fresh(b.mem)
  {
    b := new IOBuffer(capacity);
    assert b.Data() + bytes == bytes;
    b.DataAdd(bytes);
  }

  method Copy(b: IOBuffer, ghost text: string) returns (copy: IOBuffer)
    requires Holds(b, text)
    ensures Holds(copy, text) && fresh(copy) && fresh(copy.mem)
  {
    copy := b.Dup();
  }

  /** Copies one buffer behind the text of another; an empty one trips the commit assertion. */
  method CopyInto(final: IOBuffer, ghost sofar: string, b: IOBuffer, ghost text: string) returns (ok: bool)
    requires Holds(final, sofar) && Holds(b, text) && Separate(final, b)
    requires |sofar| + |text| <= final.capacity
    modifies final`remaining, final.mem
    ensures ok <==> text != ""
    ensures ok ==> Holds(final, sofar + text)
  {
    ok := b.remaining != 0;
    if ok {
      assert final.SpaceLen() >= b.remaining;
      Extend(final, sofar, b.mem[b.ptr..b.ptr + b.remaining]);
    }
  }

  class BufferChain {
    var chain: seq<IOBuffer>
    var mSize: int
    ghost var texts: seq<string>  // the data of each buffer

    /** The buffers hold their texts and share no memory. */
    ghost predicate Sound()
      reads this, chain, Mems(chain)
    {
      && |texts| == |chain|
      && (forall i :: 0 <= i < |chain| ==> chain[i].mem in Mems(chain) && Holds(chain[i], texts[i]))
      && (forall i, j :: 0 <= i < j < |chain| ==> Separate(chain[i], chain[j]))
    }

    ghost predicate Valid()
      reads this, chain, Mems(chain)
    {
      Sound() && mSize == |Flat(texts)|
    }

    /** The bytes in the chain. */
    ghost function Contents(): string
      reads this
    {
      Flat(texts)
    }

    constructor ()
      ensures Valid() && Contents() == "" && chain == []
    {
      chain, mSize, texts := [], 0, [];
    }

    /** The free space of the last buffer. */
    ghost function LastSpace(): int
      reads this, chain
    {
      if chain == [] then 0 else var last := chain[|chain| - 1]; last.capacity - last.ptr - last.remaining
    }

    /** Adds to the last buffer, which has the space. */
    method ExtendLast(bytes: string)
      requires Valid() && chain != [] && bytes != ""
      requires |texts[|chain| - 1]| + |bytes| <= chain[|chain| - 1].capacity
      modifies this`mSize, this`texts, chain[|chain| - 1], chain[|chain| - 1].mem
      ensures Valid() && Contents() == old(Contents()) + bytes
    {
      hide Holds, Flat, IOBuffer.Valid;
      var k := |chain| - 1;
      FlatLast(texts, bytes);
      OthersUntouched(bytes);
      hide Separate;
      texts := texts[k := texts[k] + bytes];
      mSize := mSize + |bytes|;
    }

    /** Adds to the last buffer only. */
    method OthersUntouched(bytes: string)
      requires Sound() && chain != [] && bytes != ""
      requires |texts[|chain| - 1]| + |bytes| <= chain[|chain| - 1].capacity
      modifies chain[|chain| - 1], chain[|chain| - 1].mem
      ensures Holds(chain[|chain| - 1], texts[|chain| - 1] + bytes)
      ensures forall i :: 0 <= i < |chain| - 1 ==> Holds(chain[i], texts[i])
    {
      hide Holds;
      var k := |chain| - 1;
      Extend(chain[k], texts[k], bytes);
      forall i | 0 <= i < k ensures Holds(chain[i], texts[i]) {
        assert Separate(chain[i], chain[k]);
      }
    }

    /** BufferChain_append, of at least one byte. */
    method Append(bytes: string)
      requires Valid() && bytes != ""
      modifies this, chain, Mems(chain)
      ensures Valid() && Contents() == old(Contents()) + bytes
      ensures chain == old(chain) <==> old(mSize) > 0 && old(LastSpace()) >= |bytes|
      ensures chain != old(chain) ==>
                && |chain| == |old(chain)| + 1 && chain[..|chain| - 1] == old(chain)
                && chain[|chain| - 1].capacity == if |bytes| > 8192 then |bytes| + 100 else 8192
    {
      if mSize > 0 {
        var k := |chain| - 1;
        HoldsMeans(chain[k], texts[k]);
        if chain[k].SpaceLen() >= |bytes| {
          ExtendLast(bytes);
          return;
        }
      }
      hide Holds, Flat;
      var required := if |bytes| > BLOCK then |bytes| + 100 else BLOCK;
      var iob := NewHolding(required, bytes);
      AddBack(iob, bytes);
    }

    /** BufferChain_add_back, of an unconsumed buffer that is not in the chain. */
    method AddBack(iob: IOBuffer, ghost text: string)
      requires Valid() && Holds(iob, text) && forall i :: 0 <= i < |chain| ==> Separate(chain[i], iob)
      modifies this
      ensures Valid() && chain == old(chain) + [iob] && texts == old(texts) + [text]
      ensures Contents() == old(Contents()) + text
    {
      hide Holds, Flat, Separate;
      FlatBack(texts, text);
      HoldsMeans(iob, text);
      texts := texts + [text];
      chain := chain + [iob];
      mSize := mSize + iob.remaining;
    }

    /** BufferChain_add_front sets the size instead of adding to it, so the chain stays valid if and
        only if it held no bytes before. */
    method AddFront(iob: IOBuffer, ghost text: string)
      requires Valid() && Holds(iob, text) && Outside(iob)
      modifies this
      ensures Sound() && chain == [iob] + old(chain) && texts == [text] + old(texts) && mSize == |text|
      ensures Contents() == text + old(Contents())
      ensures Valid() <==> old(Contents()) == ""
    {
      hide Holds, Separate, Flat;
      HoldsMeans(iob, text);
      FlatFront(text, texts);
      PutInFront(iob, text);
      mSize := iob.remaining;
    }

    method PutInFront(iob: IOBuffer, ghost text: string)
      requires Sound() && Holds(iob, text) && Outside(iob)
      modifies this`chain, this`texts
      ensures Sound() && chain == [iob] + old(chain) && texts == [text] + old(texts)
    {
      hide Holds, Separate;
      ghost var before := chain;
      texts := [text] + texts;
      chain := [iob] + chain;
      assert forall i :: 1 <= i < |chain| ==> chain[i] == before[i - 1];
    }

    /** BufferChain_pop_front. */
    method PopFront() returns (front: IOBuffer?)
      requires Valid()
      modifies this
      ensures Valid()
      ensures old(chain) == [] ==> front == null && chain == []
      ensures old(chain) != [] ==>
                && front == old(chain)[0] && chain == old(chain)[1..] && texts == old(texts)[1..]
                && Holds(front, old(texts)[0]) && old(Contents()) == old(texts)[0] + Contents()
    {
      hide Holds, Separate;
      if chain == [] {
        return null;
      }
      front := chain[0];
      HoldsMeans(front, texts[0]);
      chain := chain[1..];
      texts := texts[1..];
      mSize := mSize - front.remaining;
    }

    /** BufferChain_append_bufferchain: appends copies and leaves the other chain alone. */
    method AppendChain(other: BufferChain)
      requires Valid() && other.Valid() && other != this
      modifies this
      ensures Valid() && Contents() == old(Contents()) + other.Contents()
      ensures other.Valid() && texts == old(texts) + other.texts && chain[..|old(chain)|] == old(chain)
    {
      hide Holds, Flat;
      var i := 0;
      NoTexts(other.texts);
      while i < |other.chain|
        invariant 0 <= i <= |other.chain| && Valid() && other.Valid()
        invariant Contents() == old(Contents()) + Flat(other.texts[..i])
        invariant texts == old(texts) + other.texts[..i] && |chain| == |texts| && |old(chain)| == |old(texts)|
        invariant chain[..|old(chain)|] == old(chain)
      {
        var copy := Copy(other.chain[i], other.texts[i]);
        SplitAt(other.texts, i);
        assert other.texts[..i + 1] == other.texts[..i] + [other.texts[i]];
        AddBack(copy, other.texts[i]);
        i := i + 1;
      }
      assert other.texts[..i] == other.texts;
    }

    /** The chains share no buffer. */
    ghost predicate Apart(other: BufferChain)
      reads this, other
    {
      forall i, j :: 0 <= i < |chain| && 0 <= j < |other.chain| ==> Separate(chain[i], other.chain[j])
    }

    /** Moves the first buffer of the other chain to the back of this one. */
    method MoveFirst(other: BufferChain)
      requires Valid() && other.Valid() && other != this && Apart(other) && other.chain != []
      modifies this, other
      ensures Valid() && other.Valid() && Apart(other)
      ensures chain == old(chain) + [old(other.chain)[0]] && other.chain == old(other.chain)[1..]
      ensures Contents() == old(Contents()) + old(other.texts)[0]
      ensures old(other.Contents()) == old(other.texts)[0] + other.Contents()
    {
      hide Holds, Flat, Separate;
      ghost var text := other.texts[0];
      forall j | 1 <= j < |other.chain| ensures Separate(other.chain[0], other.chain[j]) {
      }
      var iob := other.PopFront();
      AddBack(iob, text);
    }

    /** BufferChain_steal_bufferchain: moves every buffer over and empties the other chain. */
    method StealChain(other: BufferChain)
      requires Valid() && other.Valid() && other != this && Apart(other)
      modifies this, other
      ensures Valid() && other.Valid() && Contents() == old(Contents()) + old(other.Contents())
      ensures other.chain == [] && other.mSize == 0 && chain == old(chain) + old(other.chain)
    {
      hide Holds, Flat, Separate, Apart;
      while |other.chain| > 0
        invariant Valid() && other.Valid() && Apart(other)
        invariant chain + other.chain == old(chain) + old(other.chain)
        invariant Contents() + other.Contents() == old(Contents()) + old(other.Contents())
        decreases |other.chain|
      {
        MoveFirst(other);
      }
      NoTexts(other.texts);
    }

    ghost predicate Outside(b: IOBuffer)
      reads this
    {
      forall i :: 0 <= i < |chain| ==> Separate(b, chain[i])
    }

    /** The loop of BufferChain_compact. */
    method CopyAll(final: IOBuffer) returns (ok: bool)
      requires Valid() && Holds(final, "") && final.capacity == mSize && Outside(final)
      modifies final`remaining, final.mem
      ensures Valid()
      ensures ok <==> forall i :: 0 <= i < |chain| ==> texts[i] != ""
      ensures ok ==> Holds(final, Contents())
    {
      hide Flat, Holds, IOBuffer.Valid;
      NoTexts(texts);
      var i := 0;
      while i < |chain|
        invariant 0 <= i <= |chain| && Valid()
        invariant Holds(final, Flat(texts[..i]))
        invariant forall j :: 0 <= j < i ==> texts[j] != ""
      {
        SplitAt(texts, i);
        ok := CopyInto(final, Flat(texts[..i]), chain[i], texts[i]);
        if !ok {
          return;
        }
        i := i + 1;
      }
      assert texts[..i] == texts;
      ok := true;
    }

    /** BufferChain_compact: one buffer with all the bytes; it trips the commit assertion, `!ok`,
        exactly when some buffer of the chain is empty.  The space assertion always holds. */
    method Compact() returns (ok: bool, final: IOBuffer)
      requires Valid()
      ensures ok <==> forall i :: 0 <= i < |chain| ==> texts[i] != ""
      ensures ok ==> Holds(final, Contents()) && final.capacity == mSize && fresh(final)
    {
      hide Flat;
      final := new IOBuffer(mSize);
      assert Holds(final, "");
      ok := CopyAll(final);
    }
  }

  /** A chain of two bytes with one more in front has three and counts one. */
  method FrontOverwritesSize() returns (size: int, chain: BufferChain)
    ensures size == chain.mSize == 1 && chain.Contents() == "cab"
  {
    chain := new BufferChain();
    chain.Append("ab");
    var iob := NewHolding(8, "c");
    chain.AddFront(iob, "c");
    size := chain.mSize;
  }

  /** One empty buffer is enough to bring down the compaction. */
  method CompactAborts() returns (ok: bool)
    ensures !ok
  {
    var chain := new BufferChain();
    var iob := new IOBuffer(8);
    chain.AddBack(iob, "");
    var final;
    ok, final := chain.Compact();
    assert chain.texts[0] == "";
  }

  lemma FlatFront(text: string, texts: seq<string>)
    ensures Flat([text] + texts) == text + Flat(texts)
  {
    assert ([text] + texts)[1..] == texts;
  }

  lemma NoTexts(texts: seq<string>)
    ensures Flat(texts[..0]) == "" && (texts == [] ==> Flat(texts) == "")
  {
  }
}
