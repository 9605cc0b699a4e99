/** The compacting output of src/lql_json_scan.c:198-259: bytes collect in a fixed buffer that is flushed to a writer. */
module Emitter {

  const EMIT_BUFFER_SIZE := 4096

  class Output {
    /** Whether there is a writer; without one nothing is kept. */
    const writing: bool
    const buffer: array<char>
    var len: nat
    /** What the writer has received. */
    var sunk: string

    predicate Valid()
      reads this
    {
      buffer.Length == EMIT_BUFFER_SIZE && len <= EMIT_BUFFER_SIZE
    }

    /** Everything emitted, flushed or not. */
    function Contents(): string
      requires Valid()
      reads this, buffer
    {
      sunk + buffer[..len]
    }

    constructor (writing: bool)
      ensures Valid() && fresh(buffer) && this.writing == writing && Contents() == "" && sunk == ""
    {
      this.writing := writing;
      buffer := new char[EMIT_BUFFER_SIZE];
      len, sunk := 0, "";
    }

    /** src/lql_json_scan.c:247-259. */
    method Flush()
      requires Valid()
      modifies this`len, this`sunk
      ensures Valid() && len == 0 && Contents() == old(Contents()) == sunk
    {
      sunk := sunk + buffer[..len];
      len := 0;
    }

    /** A new record starts with an empty spool (src/lql_json_scan.c:5108-5110). */
    method Reset()
      requires Valid() && len == 0
      modifies this`sunk
      ensures Valid() && Contents() == ""
    {
      sunk := "";
    }

    /** src/lql_json_scan.c:230-245. */
    method WriteByte(c: char)
      requires Valid()
      modifies this`len, this`sunk, buffer
      ensures Valid() && Contents() == old(Contents()) + (if writing then [c] else "")
    {
      if !writing {
        return;
      }
      if len == EMIT_BUFFER_SIZE {
        Flush();
      }
      buffer[len] := c;
      len := len + 1;
    }

    /** src/lql_json_scan.c:198-228. */
    method Write(data: string)
      requires Valid()
      modifies this`len, this`sunk, buffer
      ensures Valid() && Contents() == old(Contents()) + (if writing then data else "")
    {
      if !writing {
        return;
      }
      var done := 0;
      while done < |data|
        invariant Valid() && done <= |data| && Contents() == old(Contents()) + data[..done]
      {
        if len == EMIT_BUFFER_SIZE {
          Flush();
        }
        var amount := EMIT_BUFFER_SIZE - len;
        if amount > |data| - done {
          amount := |data| - done;
        }
        Copy(data, done, amount);
        assert data[..done + amount] == data[..done] + data[done..done + amount];
        done := done + amount;
      }
      assert data[..|data|] == data;
    }

    method Copy(data: string, from: nat, amount: nat)
      requires Valid() && from + amount <= |data| && len + amount <= EMIT_BUFFER_SIZE
      modifies this`len, buffer
      ensures Valid() && Contents() == old(Contents()) + data[from..from + amount]
    {
      forall i | 0 <= i < amount {
        buffer[len + i] := data[from + i];
      }
      len := len + amount;
      assert buffer[..len] == old(buffer[..len]) + data[from..from + amount];
    }
  }
}
