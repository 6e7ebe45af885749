/** The entry buffer of `struct CalcState` (`entry[MAX_ENTRY + 1]` and
    `entry_len`, amicalc.c:109-110) and the in-place edits the handlers make to
    it, among them `insert_char` and `remove_char` (amicalc.c:753-776). */
module EntryBuf {
  import opened Config
  import opened Numeric
  import opened Buffers
  import EntryEditor

  class EntryBuffer {
    const chars: array<char>
    var len: int

    ghost predicate Valid()
      reads this
    {
      chars.Length == MAX_ENTRY && 0 <= len <= MAX_ENTRY
    }

    /** The number the buffer holds. */
    function Text(): seq<char>
      reads this, chars
      requires Valid()
    {
      chars[..len]
    }

    constructor ()
      ensures Valid() && Text() == [] && fresh(chars)
    {
      chars := new char[MAX_ENTRY];
      len := 0;
    }

    /** `entry_len = 0; entry[0] = '\0'` */
    method Clear()
      requires Valid()
      modifies this
      ensures Valid() && Text() == []
    {
      len := 0;
    }

    /** `entry[entry_len++] = ch` on a buffer with room. */
    method Push(ch: char)
      requires Valid() && len < MAX_ENTRY
      modifies this, chars
      ensures Valid() && Text() == old(Text()) + [ch]
    {
      chars[len] := ch;
      len := len + 1;
    }

    /** `entry[i] = ch` inside the number. */
    method Put(i: int, ch: char)
      requires Valid() && 0 <= i < len
      modifies chars
      ensures Valid() && Text() == old(Text())[i := ch]
    {
      chars[i] := ch;
    }

    /** `entry[--entry_len] = '\0'` on a non-empty buffer. */
    method Pop()
      requires Valid() && len > 0
      modifies this
      ensures Valid() && Text() == old(Text())[..|old(Text())| - 1]
    {
      len := len - 1;
    }

    /** `sprintf(entry, "%.15g", x)` with the formatted text `s`. */
    method Write(s: Formatted)
      requires Valid()
      modifies this, chars
      ensures Valid() && Text() == s
    {
      Blit(chars, 0, s);
      len := |s|;
    }

    /** `insert_char`: shift the tail right by one and put `ch` at `pos`,
        unless the position is out of range or the buffer is full. */
    method InsertChar(pos: int, ch: char) returns (inserted: bool)
      requires Valid()
      modifies this, chars
      ensures Valid() && Text() == EntryEditor.InsertChar(old(Text()), pos, ch)
      ensures inserted <==> Text() != old(Text())
    {
      if pos < 0 || pos > len {
        return false;
      }
      if len >= MAX_ENTRY {
        return false;
      }
      ghost var before := Text();
      MoveUp(chars, pos, pos + 1, len - pos);
      chars[pos] := ch;
      len := len + 1;
      assert Text()[..pos] == before[..pos];
      assert Text()[pos + 1..] == before[pos..];
      assert Text() == before[..pos] + [ch] + before[pos..];
      return true;
    }

    /** `remove_char`: drop the character at `pos` and shift the tail left. */
    method RemoveChar(pos: int)
      requires Valid()
      modifies this, chars
      ensures Valid() && Text() == EntryEditor.RemoveChar(old(Text()), pos)
    {
      if pos < 0 || pos >= len {
        return;
      }
      ghost var before := Text();
      MoveDown(chars, pos + 1, pos, len - pos - 1);
      len := len - 1;
      assert Text()[..pos] == before[..pos];
      assert Text()[pos..] == before[pos + 1..];
      assert Text() == before[..pos] + before[pos + 1..];
    }
  }
}
