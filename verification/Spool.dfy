/** The record spool of src/lql_json_spool.c: memory first, then a temporary file, with a read cache in front of it. */
module Spool {
  import opened Wrappers

  const MEMORY_BYTES := 64 * 1024
  const IO_BUFFER_BYTES := 4096

  function Min(a: nat, b: nat): nat { if a < b then a else b }

  /** A stdio file: reading and writing happen at its position. */
  class File {
    var contents: string
    var position: nat

    constructor ()
      ensures contents == "" && position == 0
    {
      contents, position := "", 0;
    }

    method Write(data: string)
      requires position <= |contents|
      modifies this
      ensures contents == Overwritten(old(contents), old(position), data) && position == old(position) + |data|
    {
      contents := Overwritten(contents, position, data);
      position := position + |data|;
    }

    method Seek(offset: nat)
      modifies this`position
      ensures position == offset
    {
      position := offset;
    }

    method Read(amount: nat) returns (data: string)
      requires position <= |contents|
      modifies this`position
      ensures data == contents[old(position)..old(position) + Min(amount, |contents| - old(position))]
      ensures position == old(position) + |data|
    {
      var n := Min(amount, |contents| - position);
      data := contents[position..position + n];
      position := position + n;
    }
  }

  function Overwritten(contents: string, position: nat, data: string): string
    requires position <= |contents|
  {
    contents[..position] + data + (if position + |data| < |contents| then contents[position + |data|..] else "")
  }

  /** A write appends exactly when it starts at the end or writes nothing: the spool does not seek before it writes, so
      after a read has moved the position an append overwrites. */
  lemma AppendsExactly(contents: string, position: nat, data: string)
    requires position <= |contents|
    ensures Overwritten(contents, position, data) == contents + data <==> position == |contents| || data == ""
  {
    if position < |contents| && data != "" {
      assert |Overwritten(contents, position, data)| < |contents| + |data|;
    }
  }

  // ---------------------------------------------------------------- the end of a string

  /** The end of a string from a position inside it: behind the first quote that no backslash escapes. */
  function StringEnd(text: string, pos: nat, end: nat, escaped: bool): (r: Option<nat>)
    requires pos <= end <= |text|
    ensures r.Some? ==> pos < r.value <= end
    decreases end - pos
  {
    if pos == end then None
    else if escaped then StringEnd(text, pos + 1, end, false)
    else if text[pos] == '"' then Some(pos + 1)
    else StringEnd(text, pos + 1, end, text[pos] == '\\')
  }

  /** Whether the byte at pos is escaped, counting from start: an odd number of backslashes comes right before it. */
  predicate Escaped(text: string, start: nat, pos: nat)
    requires start <= pos <= |text|
    decreases pos
  {
    pos > start && text[pos - 1] == '\\' && !Escaped(text, start, pos - 1)
  }

  predicate Ends(text: string, start: nat, pos: nat)
    requires start <= pos < |text|
  {
    text[pos] == '"' && !Escaped(text, start, pos)
  }

  /** StringEnd is the first place where the string ends, None when it nowhere does. */
  lemma {:induction false} StringEndIsFirst(text: string, start: nat, pos: nat, end: nat)
    requires start <= pos <= end <= |text|
    ensures var r := StringEnd(text, pos, end, Escaped(text, start, pos));
      && (r.Some? ==> Ends(text, start, r.value - 1) && forall q :: pos <= q < r.value - 1 ==> !Ends(text, start, q))
      && (r.None? ==> forall q :: pos <= q < end ==> !Ends(text, start, q))
    decreases end - pos
  {
    if pos < end && !Ends(text, start, pos) {
      StringEndIsFirst(text, start, pos + 1, end);
    }
  }

  // ---------------------------------------------------------------- one chunk

  /** memchr. */
  method IndexOf(data: string, from: nat, c: char) returns (r: Option<nat>)
    requires from <= |data|
    ensures r.Some? ==> from <= r.value < |data| && data[r.value] == c && forall i :: from <= i < r.value ==> data[i] != c
    ensures r.None? ==> forall i :: from <= i < |data| ==> data[i] != c
  {
    for i := from to |data|
      invariant forall j :: from <= j < i ==> data[j] != c
    {
      if data[i] == c {
        return Some(i);
      }
    }
    r := None;
  }

  lemma {:induction false} NothingBetween(data: string, from: nat, until: nat)
    requires from <= until <= |data| && forall i :: from <= i < until ==> data[i] != '"' && data[i] != '\\'
    ensures StringEnd(data, from, |data|, false) == StringEnd(data, until, |data|, false)
    decreases until - from
  {
    if from < until {
      NothingBetween(data, from + 1, until);
    }
  }

  /** Whether a chunk leaves the next byte escaped. */
  function EscapedAfter(data: string, escaped: bool): bool
    decreases |data|
  {
    if |data| == 0 then escaped else !EscapedAfter(data[..|data| - 1], escaped) && data[|data| - 1] == '\\'
  }

  lemma {:induction false} PlainTail(data: string, escaped: bool, from: nat, n: nat)
    requires from <= n <= |data| && !EscapedAfter(data[..from], escaped)
    requires forall i :: from <= i < n ==> data[i] != '\\'
    ensures !EscapedAfter(data[..n], escaped)
    decreases n
  {
    if from < n {
      assert data[..n][..n - 1] == data[..n - 1];
    }
  }

  lemma OneStep(data: string, escaped: bool, n: nat)
    requires n < |data|
    ensures EscapedAfter(data[..n + 1], escaped) == (!EscapedAfter(data[..n], escaped) && data[n] == '\\')
  {
    assert data[..n + 1][..n] == data[..n];
  }

  /** src/lql_json_spool.c:254-287. */
  method ChunkEnd(data: string, escaped: bool) returns (r: Option<nat>, after: bool)
    ensures r == StringEnd(data, 0, |data|, escaped)
    ensures r.None? ==> after == EscapedAfter(data, escaped)
  {
    var offset := 0;
    after := escaped;
    assert data[..0] == "";
    while offset < |data|
      invariant offset <= |data| && StringEnd(data, 0, |data|, escaped) == StringEnd(data, offset, |data|, after)
      invariant after == EscapedAfter(data[..offset], escaped)
    {
      OneStep(data, escaped, offset);
      if after {
        after := false;
        offset := offset + 1;
        continue;
      }
      var quote := IndexOf(data, offset, '"');
      var slash := IndexOf(data, offset, '\\');
      if quote.None? && slash.None? {
        NothingBetween(data, offset, |data|);
        PlainTail(data, escaped, offset, |data|);
        assert data[..|data|] == data;
        return None, false;
      }
      if slash.Some? && (quote.None? || slash.value < quote.value) {
        NothingBetween(data, offset, slash.value);
        PlainTail(data, escaped, offset, slash.value);
        OneStep(data, escaped, slash.value);
        offset := slash.value + 1;
        after := true;
        continue;
      }
      NothingBetween(data, offset, quote.value);
      return Some(quote.value + 1), false;
    }
    assert data[..|data|] == data;
    r := None;
  }

  /** A scan of the whole string can stop at any point and go on with what it knows. */
  lemma {:induction false} EndInChunk(text: string, pos: nat, n: nat, end: nat, escaped: bool)
    requires pos + n <= end <= |text|
    ensures var chunk := text[pos..pos + n];
      var r := StringEnd(chunk, 0, n, escaped);
      StringEnd(text, pos, end, escaped)
      == if r.Some? then Some(pos + r.value) else StringEnd(text, pos + n, end, EscapedAfter(chunk, escaped))
  {
    EndFrom(text, pos, 0, n, end, escaped);
    assert text[pos..pos + n][..0] == "";
  }

  lemma {:induction false} EndFrom(text: string, pos: nat, k: nat, n: nat, end: nat, escaped: bool)
    requires k <= n && pos + n <= end <= |text|
    ensures var chunk := text[pos..pos + n];
      var e := EscapedAfter(chunk[..k], escaped);
      var r := StringEnd(chunk, k, n, e);
      StringEnd(text, pos + k, end, e)
      == if r.Some? then Some(pos + r.value) else StringEnd(text, pos + n, end, EscapedAfter(chunk, escaped))
    decreases n - k
  {
    var chunk := text[pos..pos + n];
    if k < n {
      OneStep(chunk, escaped, k);
      EndFrom(text, pos, k + 1, n, end, escaped);
    } else {
      assert chunk[..n] == chunk;
    }
  }

  lemma MemorySlice(memory: array<char>, len: nat, a: nat, b: nat)
    requires a <= b <= len <= memory.Length
    ensures memory[a..b] == memory[..len][a..b]
  {
  }

  lemma NothingLeft(text: string, end: nat)
    requires end <= |text|
    ensures forall escaped :: StringEnd(text, end, end, escaped) == None
  {
  }

  class Spool {
    const memory: array<char>
    var memoryLen: nat
    var size: nat
    var file: File?
    const cache: array<char>
    var cacheOffset: nat
    var cacheLen: nat
    /** Everything appended since the last reset. */
    ghost var text: string

    predicate Shape()
      reads this
    {
      memory.Length == MEMORY_BYTES && cache.Length == IO_BUFFER_BYTES && memory != cache
    }

    ghost predicate Valid()
      reads this, memory, cache, file
    {
      && Shape() && size == |text| && memoryLen <= MEMORY_BYTES && cacheLen <= IO_BUFFER_BYTES
      && (file == null ==> memoryLen == size && memory[..memoryLen] == text && cacheLen == 0)
      && (file != null ==> file.contents == text && file.position <= |text|)
      && (cacheLen > 0 ==> cacheOffset + cacheLen <= |text| && cache[..cacheLen] == text[cacheOffset..cacheOffset + cacheLen])
    }

    /** Appending goes on where the last append ended: nothing has been read since. */
    ghost predicate Filling()
      reads this, file
    {
      file != null ==> file.position == |file.contents|
    }

    constructor ()
      ensures Valid() && Filling() && text == "" && fresh(memory) && fresh(cache)
    {
      memory, cache := new char[MEMORY_BYTES], new char[IO_BUFFER_BYTES];
      memoryLen, size, file, cacheOffset, cacheLen, text := 0, 0, null, 0, 0, "";
    }

    /** src/lql_json_spool.c:63-74. */
    method Reset()
      requires Valid()
      modifies this
      ensures Valid() && Filling() && text == ""
    {
      file, memoryLen, size, cacheOffset, cacheLen, text := null, 0, 0, 0, 0, "";
    }

    /** src/lql_json_spool.c:87-105. */
    method Spill()
      requires Valid() && file == null
      modifies this`file
      ensures Valid() && Filling() && file != null && fresh(file)
    {
      var temporary := new File();
      temporary.Write(memory[..memoryLen]);
      assert Overwritten("", 0, memory[..memoryLen]) == memory[..memoryLen];
      file := temporary;
    }

    /** src/lql_json_spool.c:107-145: succeeds unless the size would overflow. It writes where the file's position is: what was
        read before decides whether that appends. */
    method Append(data: string, sizeMax: nat) returns (ok: bool)
      requires Valid()
      modifies this, memory, file
      ensures ok == (|data| <= sizeMax - |old(text)|)
      ensures !ok ==> Valid() && text == old(text) && (old(Filling()) ==> Filling())
      ensures ok ==> text == old(text) + data && size == |text| && (Valid() <==> old(Filling()) || data == "")
      ensures ok && old(Filling()) ==> Filling()
      ensures ok && !old(Filling()) ==>
        && file != null && file == old(file)
        && file.contents == Overwritten(old(file.contents), old(file.position), data) && file.position == old(file.position) + |data|
      ensures file == old(file) || fresh(file)
    {
      if |data| > sizeMax - size {
        return false;
      }
      if file == null && |data| <= MEMORY_BYTES - memoryLen {
        forall i | 0 <= i < |data| {
          memory[memoryLen + i] := data[i];
        }
        memoryLen := memoryLen + |data|;
        text := text + data;
        size := size + |data|;
        assert memory[..memoryLen] == old(memory[..memoryLen]) + data;
        return true;
      }
      if file == null {
        Spill();
      }
      AppendToFile(data);
      ok := true;
    }

    method AppendToFile(data: string)
      requires Valid() && file != null
      modifies this`cacheLen, this`text, this`size, file
      ensures text == old(text) + data && size == |text| && (Valid() <==> old(Filling()) || data == "")
      ensures old(Filling()) ==> Filling()
      ensures file.contents == Overwritten(old(file.contents), old(file.position), data) && file.position == old(file.position) + |data|
    {
      cacheLen := 0;
      AppendsExactly(file.contents, file.position, data);
      if data != "" {
        file.Write(data);
      } else {
        NothingOverwritten(file.contents, file.position);
      }
      text := text + data;
      size := size + |data|;
    }

    lemma NothingOverwritten(contents: string, position: nat)
      requires position <= |contents|
      ensures Overwritten(contents, position, "") == contents
    {
    }

    /** A byte read from the file and an append behind it: the file no longer holds what was appended. */
    method ReadThenAppend(data: string, sizeMax: nat)
      requires Valid() && file != null && cacheLen == 0 && |text| > IO_BUFFER_BYTES && data != "" && |data| <= sizeMax - |text|
      modifies this, memory, cache, file
      ensures text == old(text) + data && file != null && file.contents != text && |file.contents| < |text|
    {
      var _ := ByteAt(0);
      var _ := Append(data, sizeMax);
    }

    /** The next amount bytes of the file go into the read cache. */
    method FillCache(offset: nat, amount: nat)
      requires Valid() && file != null && file.position == offset && offset + amount <= size && amount <= IO_BUFFER_BYTES
      modifies this`cacheOffset, this`cacheLen, cache, file`position
      ensures Valid() && cacheOffset == offset && cacheLen == amount && file.position == offset + amount
      ensures cache[..amount] == text[offset..offset + amount]
    {
      var bytes := file.Read(amount);
      forall i | 0 <= i < amount {
        cache[i] := bytes[i];
      }
      cacheOffset, cacheLen := offset, amount;
      assert cache[..amount] == bytes;
    }

    /** src/lql_json_spool.c:204-252: a byte, from memory, from the cache, or from the file. */
    method ByteAt(offset: nat) returns (r: Option<char>)
      requires Valid()
      modifies this`cacheOffset, this`cacheLen, cache, file
      ensures Valid() && r == (if offset < |text| then Some(text[offset]) else None)
      ensures file != null && offset < |text| && old(cacheLen) == 0 ==> file.position == offset + Min(|text| - offset, IO_BUFFER_BYTES)
    {
      if offset >= size {
        return None;
      }
      if file == null {
        assert memory[..memoryLen][offset] == memory[offset];
        return Some(memory[offset]);
      }
      if cacheOffset <= offset < cacheOffset + cacheLen {
        assert cache[..cacheLen][offset - cacheOffset] == cache[offset - cacheOffset];
        return Some(cache[offset - cacheOffset]);
      }
      file.Seek(offset);
      FillCache(offset, Min(size - offset, IO_BUFFER_BYTES));
      assert cache[..cacheLen][0] == cache[0];
      r := Some(cache[0]);
    }

    /** src/lql_json_spool.c:157-202: what the writer receives, chunk after chunk. */
    method WriteSlice(offset: nat, len: nat) returns (ok: bool, written: string)
      requires Valid()
      modifies file
      ensures Valid() && ok == (offset + len <= |text|)
      ensures ok ==> written == text[offset..offset + len]
    {
      written := "";
      if offset > size || len > size - offset {
        return false, "";
      }
      if file == null {
        MemorySlice(memory, memoryLen, offset, offset + len);
        return true, memory[offset..offset + len];
      }
      if len == 0 {
        return true, "";
      }
      var capacity := Min(len, IO_BUFFER_BYTES);
      var from: nat, rest: nat := offset, len;
      while rest != 0
        invariant Valid() && offset <= from && from + rest == offset + len <= |text|
        invariant written == text[offset..from]
        decreases rest
      {
        var amount := Min(rest, capacity);
        file.Seek(from);
        var buffer := file.Read(amount);
        assert text[offset..from + amount] == text[offset..from] + text[from..from + amount];
        written := written + buffer;
        from, rest := from + amount, rest - amount;
      }
      ok := true;
    }

    /** src/lql_json_spool.c:289-356: the end of the string whose opening quote is at the offset. */
    method FindStringEnd(offset: nat, end: nat) returns (r: Option<nat>)
      requires Valid()
      modifies this`cacheOffset, this`cacheLen, cache, file
      ensures Valid()
      ensures r == if offset < end <= |text| && text[offset] == '"' then StringEnd(text, offset + 1, end, false) else None
    {
      if offset >= end || end > size {
        return None;
      }
      var c := ByteAt(offset);
      if c != Some('"') {
        return None;
      }
      if file == null {
        r := FindInMemory(offset + 1, end);
      } else {
        r := FindInFile(offset + 1, end);
      }
    }

    method FindInMemory(start: nat, end: nat) returns (r: Option<nat>)
      requires Valid() && file == null && start <= end <= size
      ensures r == StringEnd(text, start, end, false)
    {
      if start == end {
        return None;
      }
      var found, _ := ChunkEnd(memory[start..end], false);
      EndInChunk(text, start, end - start, end, false);
      MemorySlice(memory, memoryLen, start, end);
      r := if found.Some? then Some(start + found.value) else None;
    }

    method FindInFile(start: nat, end: nat) returns (r: Option<nat>)
      requires Valid() && file != null && start <= end <= size
      modifies this`cacheOffset, this`cacheLen, cache, file`position
      ensures Valid() && r == StringEnd(text, start, end, false)
    {
      hide StringEnd, EscapedAfter;
      file.Seek(start);
      NothingLeft(text, end);
      var pos, escaped := start, false;
      while pos < end
        invariant Valid() && file != null && start <= pos <= end <= size && file.position == pos
        invariant StringEnd(text, start, end, false) == StringEnd(text, pos, end, escaped)
        decreases end - pos
      {
        var amount := Min(end - pos, IO_BUFFER_BYTES);
        FillCache(pos, amount);
        EndInChunk(text, pos, amount, end, escaped);
        var found, after := ChunkEnd(cache[..amount], escaped);
        if found.Some? {
          return Some(pos + found.value);
        }
        pos, escaped := pos + amount, after;
      }
      r := None;
    }
  }
}
