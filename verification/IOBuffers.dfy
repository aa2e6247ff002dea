/** IOBuffer: a fixed block of memory with a window of unconsumed data. */
module IOBuffers {
  import opened Wrappers

  /** What a commit makes of the bytes that should then be the data.  The terminating NUL goes to
      `mem[remaining]`, counted from the start of the block and not from the data: with `ptr` bytes
      already consumed it may fall inside the data. */
  function Committed(window: string, ptr: nat): string {
    if 0 < ptr <= |window| then window[|window| - ptr := '\0'] else window
  }

  /** A commit leaves the data intact if and only if nothing is partly consumed, or the consumed
      part is longer than the data, or a NUL is already there. */
  lemma CommitKeepsDataExactlyWhen(window: string, ptr: nat)
    ensures Committed(window, ptr) == window
       <==> ptr == 0 || ptr > |window| || window[|window| - ptr] == '\0'
  {
  }

  /** Two bytes, one of them consumed, one more committed: the new byte is lost. */
  method CommitLosesAByte() returns (data: string)
    ensures data == "b\0"
  {
    var iob := new IOBuffer(8);
    assert iob.Data() + "ab" == "ab";
    iob.DataAdd("ab");
    iob.Consume(1);
    assert iob.Data() + "c" == "bc";
    iob.DataAdd("c");
    data := iob.mem[iob.ptr..iob.ptr + iob.remaining];
  }

  /** The C string at the start of `s`: what precedes the first NUL. */
  function CString(s: string): string {
    if s == "" || s[0] == '\0' then "" else [s[0]] + CString(s[1..])
  }

  lemma {:induction false} CStringStopsAtNul(text: string, rest: string)
    requires rest != "" && rest[0] == '\0'
    ensures CString(text + rest) == CString(text)
  {
    if text == "" {
      assert text + rest == rest;
    } else {
      assert (text + rest)[1..] == text[1..] + rest;
      CStringStopsAtNul(text[1..], rest);
    }
  }

  /** It is the longest beginning of `text` without a NUL. */
  lemma {:induction false} CStringIs(text: string)
    ensures CString(text) <= text && '\0' !in CString(text)
    ensures |CString(text)| < |text| ==> text[|CString(text)|] == '\0'
  {
    if text != "" {
      CStringIs(text[1..]);
      assert text == [text[0]] + text[1..];
    }
  }

  lemma {:induction false} CStringIsWhole(text: string)
    ensures |CString(text)| <= |text| && '\0' !in CString(text)
    ensures CString(text) == text <==> '\0' !in text
  {
    if text != "" {
      CStringIsWhole(text[1..]);
      assert text == [text[0]] + text[1..];
    }
  }

  /** How formatting into a buffer ends: done, with a failed assertion, or outside what C defines. */
  datatype Printing = Printed | Aborts | Undefined

  class IOBuffer {
    const mem: array<char>
    const capacity: nat
    var ptr: nat
    var remaining: nat

    ghost predicate Valid()
      reads this
    {
      && mem.Length == capacity + 1
      && ptr + remaining <= capacity
      && (remaining == 0 ==> ptr == 0)
    }

    /** The unconsumed bytes. */
    ghost function Data(): string
      requires Valid()
      reads this, mem
    {
      mem[ptr..ptr + remaining]
    }

    /** Nothing is partly consumed and the data is followed by a NUL. */
    ghost predicate Terminated()
      requires Valid()
      reads this, mem
    {
      ptr == 0 && mem[remaining] == '\0'
    }

    constructor (capacity: nat)
      ensures Valid() && this.capacity == capacity && Data() == "" && ptr == 0 && fresh(mem)
    {
      this.capacity := capacity;
      mem := new char[capacity + 1];
      ptr, remaining := 0, 0;
    }

    function SpaceLen(): (n: nat)
      requires Valid()
      reads this
      ensures n == capacity - ptr - remaining
    {
      capacity - (ptr + remaining)
    }

    /** A read or a copy into the free space; nothing is committed yet. */
    method Fill(bytes: string)
      requires Valid() && |bytes| <= SpaceLen()
      modifies mem
      ensures Data() == old(Data())
      ensures mem[ptr..ptr + remaining + |bytes|] == old(Data()) + bytes
    {
      var start := ptr + remaining;
      var i := 0;
      while i < |bytes|
        invariant 0 <= i <= |bytes|
        invariant mem[ptr..start] == old(mem[ptr..start])
        invariant mem[start..start + i] == bytes[..i]
      {
        mem[start + i] := bytes[i];
        i := i + 1;
        assert mem[start..start + i] == mem[start..start + i - 1] + [bytes[i - 1]];
      }
      assert mem[ptr..start + |bytes|] == mem[ptr..start] + mem[start..start + |bytes|];
    }

    /** IOBuffer_commit. */
    method Commit(n: nat)
      requires Valid() && 0 < n <= SpaceLen()
      modifies this`remaining, mem
      ensures Valid() && remaining == old(remaining) + n
      ensures Data() == Committed(old(mem[ptr..ptr + remaining + n]), ptr)
      ensures ptr == 0 ==> Terminated()
    {
      ghost var window := mem[ptr..ptr + remaining + n];
      remaining := remaining + n;
      mem[remaining] := '\0';
      assert Data() == Committed(window, ptr) by {
        forall k | 0 <= k < remaining ensures Data()[k] == Committed(window, ptr)[k] {
        }
      }
    }

    /** IOBuffer_data_add. */
    method DataAdd(bytes: string)
      requires Valid() && 0 < |bytes| <= SpaceLen()
      modifies this`remaining, mem
      ensures Valid() && Data() == Committed(old(Data()) + bytes, ptr)
      ensures ptr == 0 ==> Terminated()
    {
      Fill(bytes);
      Commit(|bytes|);
    }

    /** IOBuffer_consume. */
    method Consume(n: nat)
      requires Valid() && n <= remaining
      modifies this`ptr, this`remaining
      ensures Valid() && Data() == old(Data())[n..]
      ensures remaining == old(remaining) - n
      ensures remaining > 0 ==> ptr == old(ptr) + n
    {
      ghost var rest := Data()[n..];
      ptr := ptr + n;
      assert ptr <= capacity;
      remaining := remaining - n;
      assert mem[ptr..ptr + remaining] == rest;
      if remaining == 0 {
        ptr := 0;
      }
    }

    /** IOBuffer_consume_pop_front. */
    method PopFront() returns (ch: char)
      requires Valid() && remaining > 0
      modifies this`ptr, this`remaining
      ensures Valid() && old(Data()) == [ch] + Data()
    {
      ch := mem[ptr];
      assert Data()[0] == ch;
      Consume(1);
    }

    /** IOBuffer_dup: an independent buffer with the same block, window and data. */
    method Dup() returns (copy: IOBuffer)
      requires Valid()
      ensures copy.Valid() && fresh(copy) && fresh(copy.mem)
      ensures copy.capacity == capacity && copy.ptr == ptr && copy.Data() == Data()
      ensures copy.mem[..] == mem[..]
    {
      copy := new IOBuffer(capacity);
      var i := 0;
      while i < mem.Length
        invariant 0 <= i <= mem.Length
        invariant copy.mem[..i] == mem[..i]
        invariant copy.ptr == 0 && copy.remaining == 0
      {
        copy.mem[i] := mem[i];
        i := i + 1;
        assert copy.mem[..i] == copy.mem[..i - 1] + [mem[i - 1]];
      }
      copy.ptr, copy.remaining := ptr, remaining;
      assert copy.mem[..] == mem[..];
      assert copy.Data() == copy.mem[..][ptr..ptr + remaining];
    }

    /** The block from the data on, which is where IOBuffer_cstr points. */
    ghost function Block(): string
      requires Valid()
      reads this, mem
    {
      mem[ptr..]
    }

    /** The text a "%s" conversion takes from IOBuffer_cstr; None when it runs off the block. */
    method CStr() returns (text: Option<string>)
      requires Valid()
      ensures text == if '\0' in Block() then Some(CString(Block())) else None
      ensures Terminated() ==> text == Some(CString(Data()))
    {
      var i := ptr;
      while i < mem.Length && mem[i] != '\0'
        invariant ptr <= i <= mem.Length
        invariant forall j :: ptr <= j < i ==> mem[j] != '\0'
      {
        i := i + 1;
      }
      TerminatedText();
      ghost var found, rest := mem[ptr..i], mem[i..];
      assert Block() == found + rest;
      CStringIsWhole(found);
      if i == mem.Length {
        text := None;
      } else {
        text := Some(mem[ptr..i]);
        assert rest[0] == '\0';
        CStringStopsAtNul(found, rest);
      }
    }

    lemma TerminatedText()
      requires Valid()
      ensures Terminated() ==> '\0' in Block() && CString(Block()) == CString(Data())
    {
      if Terminated() {
        assert Block()[remaining] == '\0';
        assert Block() == Data() + mem[remaining..];
        CStringStopsAtNul(Data(), mem[remaining..]);
      }
    }

    /** IOBuffer_sprintf.  A text that does not fit the free space with its NUL makes it expand the
        buffer, unless that is large enough, and format again at the old address: into the block
        it has just freed, or once more into too little space.  Nothing to print trips the
        assertion of the commit. */
    method Print(text: string) returns (r: Printing)
      requires Valid()
      modifies this`remaining, mem
      ensures r.Printed? <==> 0 < |text| < old(SpaceLen())
      ensures r.Undefined? <==> |text| >= old(SpaceLen()) && 2 * |text| > capacity
      ensures r.Printed? ==> Valid() && Data() == Committed(old(Data()) + text, ptr) && (ptr == 0 ==> Terminated())
    {
      if |text| >= SpaceLen() {
        return if 2 * |text| > capacity then Undefined else Aborts;
      }
      if text == "" {
        return Aborts;
      }
      Fill(text);
      label filled:
      mem[ptr + remaining + |text|] := '\0';
      assert mem[ptr..ptr + remaining + |text|] == old@filled(mem[ptr..ptr + remaining + |text|]);
      Commit(|text|);
      r := Printed;
    }
  }
}
