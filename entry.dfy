/** The rules of the number being typed (amicalc.c:516-531, 726-909): the
    character tests `find_exp`, `entry_has_exp` and `entry_has_decimal`, the
    shifting edits `insert_char` and `remove_char`, and what the digit,
    decimal-point, exponent and sign keys do to the text of the entry. The
    flags that surround these edits are handled in the Calculator module. */
module EntryEditor {
  import opened Config
  import opened Options

  /** `strchr(e, ch)`: the first position of `ch` in `e`. */
  function IndexOf(e: seq<char>, ch: char): (r: Option<nat>)
    ensures r.Some? ==> r.value < |e| && e[r.value] == ch && ch !in e[..r.value]
    ensures r.None? ==> ch !in e
  {
    if |e| == 0 then None
    else if e[0] == ch then Some(0)
    else
      match IndexOf(e[1..], ch)
      case None => None
      case Some(i) =>
        assert e[1..][..i] == e[1..i + 1];
        assert e[..i + 1] == [e[0]] + e[1..i + 1];
        Some(i + 1)
  }

  /** The first occurrence is the only position that answers `strchr`. */
  lemma {:induction false} IndexOfUnique(e: seq<char>, ch: char, q: nat)
    requires q < |e| && e[q] == ch && ch !in e[..q]
    ensures IndexOf(e, ch) == Some(q)
  {
  }

  predicate IsMarker(ch: char) {
    ch == 'e' || ch == 'E'
  }

  /** `entry_has_exp`: the entry holds an exponent marker, of either case. */
  predicate HasExp(e: seq<char>) {
    'e' in e || 'E' in e
  }

  /** `find_exp`: the position of the first 'e', or failing that of the first 'E'. */
  function FindExp(e: seq<char>): (r: Option<nat>)
    ensures r.Some? <==> HasExp(e)
    ensures r.Some? ==> r.value < |e| && IsMarker(e[r.value])
    ensures r.Some? ==> (e[r.value] == 'e' && 'e' !in e[..r.value])
                        || ('e' !in e && e[r.value] == 'E' && 'E' !in e[..r.value])
  {
    match IndexOf(e, 'e')
    case Some(p) => Some(p)
    case None => IndexOf(e, 'E')
  }

  /** Where the mantissa ends: the first exponent marker of either case, or the end. */
  function MarkerIndex(e: seq<char>): (r: nat)
    ensures r <= |e|
    ensures forall j :: 0 <= j < r ==> !IsMarker(e[j])
    ensures r < |e| ==> IsMarker(e[r])
  {
    if |e| == 0 then 0
    else if IsMarker(e[0]) then 0
    else 1 + MarkerIndex(e[1..])
  }

  /** `entry_has_decimal`: a '.' is scanned before the first exponent marker. */
  function HasDecimal(e: seq<char>): (r: bool)
    ensures r <==> '.' in e[..MarkerIndex(e)]
  {
    if |e| == 0 then false
    else if IsMarker(e[0]) then false
    else if e[0] == '.' then true
    else
      assert e[..MarkerIndex(e)] == [e[0]] + e[1..][..MarkerIndex(e[1..])];
      HasDecimal(e[1..])
  }

  /** `insert_char`: put `ch` at `pos` and shift the rest right, unless the
      position is out of range or the buffer is full. */
  function InsertChar(e: seq<char>, pos: int, ch: char): (r: seq<char>)
    ensures |e| <= MAX_ENTRY ==> |r| <= MAX_ENTRY
    ensures r != e <==> 0 <= pos <= |e| && |e| < MAX_ENTRY
    ensures 0 <= pos <= |e| < MAX_ENTRY ==> |r| == |e| + 1 && r[..pos] == e[..pos] && r[pos] == ch && r[pos + 1..] == e[pos..]
  {
    if pos < 0 || pos > |e| || |e| >= MAX_ENTRY then e
    else
      assert |e[..pos] + [ch] + e[pos..]| != |e|;
      e[..pos] + [ch] + e[pos..]
  }

  /** `remove_char`: drop the character at `pos` and shift the rest left. */
  function RemoveChar(e: seq<char>, pos: int): (r: seq<char>)
    ensures |r| == if 0 <= pos < |e| then |e| - 1 else |e|
    ensures 0 <= pos < |e| ==> r[..pos] == e[..pos] && r[pos..] == e[pos + 1..]
    ensures !(0 <= pos < |e|) ==> r == e
  {
    if pos < 0 || pos >= |e| then e else e[..pos] + e[pos + 1..]
  }

  /** Removing what was just inserted gives the entry back. */
  lemma RemoveUndoesInsert(e: seq<char>, pos: int, ch: char)
    requires 0 <= pos <= |e| < MAX_ENTRY
    ensures RemoveChar(InsertChar(e, pos, ch), pos) == e
  {
    var r := InsertChar(e, pos, ch);
    assert r[..pos] == e[..pos] && r[pos + 1..] == e[pos..];
  }

  /** The entry after a digit key (once a finished result has been discarded). */
  function AppendDigit(e: seq<char>, d: char): (r: seq<char>)
    ensures |e| <= MAX_ENTRY ==> |r| <= MAX_ENTRY
    ensures |e| < MAX_ENTRY ==> |r| == |e| + 1 && r[..|e|] == e && r[|e|] == d
    ensures |e| >= MAX_ENTRY ==> r == e
  {
    if |e| >= MAX_ENTRY then e else e + [d]
  }

  /** The entry after the decimal-point key (`handle_decimal`). */
  function AppendDecimalPoint(e: seq<char>): (r: seq<char>)
    ensures |e| <= MAX_ENTRY ==> |r| <= MAX_ENTRY
    ensures HasExp(e) || HasDecimal(e) ==> r == e
    ensures !HasExp(e) && !HasDecimal(e) ==>
              && (|e| == 0 ==> r == "0.")
              && (e == "-" ==> r == "-0.")
              && (|e| > 0 && e != "-" && |e| < MAX_ENTRY ==> |r| == |e| + 1 && r[..|e|] == e && r[|e|] == '.')
              && (e != "-" && |e| >= MAX_ENTRY ==> r == e)
  {
    if HasExp(e) || HasDecimal(e) then e
    else if |e| == 0 then "0."
    else if e == "-" then "-0."
    else if |e| >= MAX_ENTRY then e
    else e + "."
  }

  /** The entry after the exponent key (`handle_exp`). */
  function AppendExponent(e: seq<char>): (r: seq<char>)
    ensures |e| <= MAX_ENTRY ==> |r| <= MAX_ENTRY
    ensures HasExp(e) ==> r == e
    ensures !HasExp(e) ==>
              && (|e| == 0 ==> r == "0e")
              && (e == "-" ==> r == "-0e")
              && (|e| > 0 && e != "-" && |e| < MAX_ENTRY ==> |r| == |e| + 1 && r[..|e|] == e && r[|e|] == 'e')
              && (e != "-" && |e| >= MAX_ENTRY ==> r == e)
  {
    if HasExp(e) then e
    else
      var seeded := if |e| == 0 then "0" else if e == "-" then "-0" else e;
      if |seeded| >= MAX_ENTRY then seeded else seeded + "e"
  }

  /** The entry after the sign key (`handle_sign`): toggles the sign right
      after the exponent marker when there is one, else the leading sign. */
  function ToggleSign(e: seq<char>): (r: seq<char>)
    ensures |e| <= MAX_ENTRY ==> |r| <= MAX_ENTRY
  {
    if |e| == 0 then "-"
    else
      match FindExp(e)
      case Some(p) =>
        var idx := p + 1;
        if idx < |e| && (e[idx] == '+' || e[idx] == '-') then
          if e[idx] == '-' then RemoveChar(e, idx) else e[idx := '-']
        else InsertChar(e, idx, '-')
      case None =>
        if e[0] == '-' then RemoveChar(e, 0) else InsertChar(e, 0, '-')
  }

  /** The decimal-point key changes the entry exactly when the mantissa has no
      point yet, no exponent marker was typed and there is room; the entry it
      leaves has a point in its mantissa. */
  lemma {:induction false} DecimalPointRule(e: seq<char>)
    ensures AppendDecimalPoint(e) == e <==> (HasExp(e) || HasDecimal(e) || (|e| >= MAX_ENTRY && e != "-"))
    ensures !HasExp(e) && (|e| < MAX_ENTRY || e == "-") ==> HasDecimal(AppendDecimalPoint(e))
    ensures AppendDecimalPoint(AppendDecimalPoint(e)) == AppendDecimalPoint(e)
    ensures var r := AppendDecimalPoint(e);
            !HasExp(e) && !HasDecimal(e) ==>
              (e == [] ==> r == "0.") && (e == "-" ==> r == "-0.")
              && (|e| > 0 && e != "-" && |e| < MAX_ENTRY ==> r == e + ".")
  {
    var r := AppendDecimalPoint(e);
    if !HasExp(e) && !HasDecimal(e) {
      if |e| == 0 {
        assert MarkerIndex(r) == 2 by { assert !IsMarker(r[0]) && !IsMarker(r[1]); }
        assert r[..2][1] == '.';
      } else if e == "-" {
        assert MarkerIndex(r) == 3 by { assert !IsMarker(r[0]) && !IsMarker(r[1]) && !IsMarker(r[2]); }
        assert r[..3][2] == '.';
      } else if |e| < MAX_ENTRY {
        NoMarkerAppend(e, '.');
        assert r[..MarkerIndex(r)][|e|] == '.';
      }
    }
  }

  /** Appending a non-marker to an entry without a marker keeps the whole entry
      in the mantissa. */
  lemma {:induction false} NoMarkerAppend(e: seq<char>, ch: char)
    requires !HasExp(e) && !IsMarker(ch)
    ensures MarkerIndex(e + [ch]) == |e| + 1
  {
    if |e| > 0 {
      assert (e + [ch])[1..] == e[1..] + [ch];
      assert e[0] in e;
      assert !HasExp(e[1..]);
      NoMarkerAppend(e[1..], ch);
    }
  }

  /** The exponent key leaves a marker in any entry with room for it, and a
      second press changes nothing. */
  lemma ExponentRule(e: seq<char>)
    requires |e| < MAX_ENTRY
    ensures HasExp(AppendExponent(e))
    ensures AppendExponent(AppendExponent(e)) == AppendExponent(e)
  {
    var r := AppendExponent(e);
    if !HasExp(e) {
      assert r[|r| - 1] == 'e';
    }
  }

  /** The sign slots hold at most one sign each, and the one after an exponent
      marker is never '+' (a '+' there is turned into '-', not removed). */
  predicate SingleSigns(e: seq<char>) {
    match FindExp(e)
    case Some(p) =>
      && !(p + 1 < |e| && e[p + 1] == '+')
      && !(p + 2 < |e| && e[p + 1] == '-' && (e[p + 2] == '-' || e[p + 2] == '+'))
    case None => !(|e| >= 2 && e[0] == '-' && e[1] == '-')
  }

  /** Inserting or removing a character after position `p` leaves the first
      marker search unchanged when that character is no marker. */
  lemma {:induction false} FindExpStable(e: seq<char>, t: seq<char>, p: nat)
    requires FindExp(e) == Some(p)
    requires |t| > p && t[..p + 1] == e[..p + 1]
    requires 'e' in e[p + 1..] <==> 'e' in t[p + 1..]
    requires 'E' in e[p + 1..] <==> 'E' in t[p + 1..]
    ensures FindExp(t) == Some(p)
  {
    assert e == e[..p + 1] + e[p + 1..];
    assert t == t[..p + 1] + t[p + 1..];
    assert e[..p] == e[..p + 1][..p] && t[..p] == t[..p + 1][..p];
    var i := IndexOf(e, 'e');
    if i.Some? {
      assert i.value == p;
      IndexOfUnique(t, 'e', p);
    } else {
      assert 'e' !in t by {
        assert 'e' !in e[..p + 1] && 'e' !in e[p + 1..];
      }
      IndexOfUnique(t, 'E', p);
    }
  }

  /** Inserting a '-' right after the first marker and removing it again are
      undone by the next press of the sign key. */
  lemma {:induction false} ExponentSignRoundTrip(e: seq<char>, p: nat)
    requires |e| < MAX_ENTRY && FindExp(e) == Some(p) && SingleSigns(e)
    ensures ToggleSign(ToggleSign(e)) == e
  {
    if p + 1 < |e| && e[p + 1] == '-' {
      ExponentSignRemoved(e, p);
    } else {
      ExponentSignInserted(e, p);
    }
  }

  /** An exponent sign the key removes comes back on the next press. */
  lemma {:induction false} ExponentSignRemoved(e: seq<char>, p: nat)
    requires |e| < MAX_ENTRY && FindExp(e) == Some(p) && SingleSigns(e)
    requires p + 1 < |e| && e[p + 1] == '-'
    ensures ToggleSign(ToggleSign(e)) == e
  {
    var r := e[..p + 1] + e[p + 2..];
    ToggleAtMarker(e, p);
    SignRemovedKeepsMarker(e, p);
    ToggleAtMarker(r, p);
    assert r[..p + 1] + ['-'] + r[p + 1..] == e;
  }

  /** An exponent sign the key inserts goes away on the next press. */
  lemma {:induction false} ExponentSignInserted(e: seq<char>, p: nat)
    requires |e| < MAX_ENTRY && FindExp(e) == Some(p) && SingleSigns(e)
    requires !(p + 1 < |e| && e[p + 1] == '-')
    ensures ToggleSign(ToggleSign(e)) == e
  {
    var r := e[..p + 1] + ['-'] + e[p + 1..];
    ToggleAtMarker(e, p);
    SignInsertedKeepsMarker(e, p);
    ToggleAtMarker(r, p);
    assert r[..p + 1] + r[p + 2..] == e;
  }

  /** What the sign key does to an entry whose first marker is at `p`. */
  lemma ToggleAtMarker(e: seq<char>, p: nat)
    requires FindExp(e) == Some(p)
    ensures ToggleSign(e) ==
              if p + 1 < |e| && e[p + 1] == '-' then e[..p + 1] + e[p + 2..]
              else if p + 1 < |e| && e[p + 1] == '+' then e[p + 1 := '-']
              else if |e| < MAX_ENTRY then e[..p + 1] + ['-'] + e[p + 1..]
              else e
  {
  }

  /** Removing the '-' after the first marker keeps that marker first. */
  lemma SignRemovedKeepsMarker(e: seq<char>, p: nat)
    requires FindExp(e) == Some(p) && p + 1 < |e| && e[p + 1] == '-'
    ensures FindExp(e[..p + 1] + e[p + 2..]) == Some(p)
  {
    var r := e[..p + 1] + e[p + 2..];
    assert r[..p + 1] == e[..p + 1];
    assert e[p + 1..] == ['-'] + r[p + 1..];
    FindExpStable(e, r, p);
  }

  /** Inserting a '-' after the first marker keeps that marker first. */
  lemma SignInsertedKeepsMarker(e: seq<char>, p: nat)
    requires FindExp(e) == Some(p)
    ensures FindExp(e[..p + 1] + ['-'] + e[p + 1..]) == Some(p)
  {
    var r := e[..p + 1] + ['-'] + e[p + 1..];
    assert r[..p + 1] == e[..p + 1];
    assert r[p + 1..] == ['-'] + e[p + 1..];
    FindExpStable(e, r, p);
  }

  /** The sign key is its own inverse on an entry below capacity whose sign
      slots hold at most one sign and no '+' after the exponent marker. */
  lemma {:induction false} ToggleSignTwice(e: seq<char>)
    requires |e| < MAX_ENTRY && SingleSigns(e)
    ensures ToggleSign(ToggleSign(e)) == e
  {
    if |e| == 0 {
      assert FindExp("-") == None by { assert "-"[0] == '-'; }
    } else {
      match FindExp(e)
      case Some(p) => ExponentSignRoundTrip(e, p);
      case None => LeadingSignRoundTrip(e);
    }
  }

  /** Without a marker the sign key toggles the leading sign, and a second
      press undoes it. */
  lemma {:induction false} LeadingSignRoundTrip(e: seq<char>)
    requires 0 < |e| < MAX_ENTRY && FindExp(e) == None && SingleSigns(e)
    ensures ToggleSign(ToggleSign(e)) == e
  {
    ToggleWithoutMarker(e);
    if e[0] == '-' {
      var r := e[1..];
      assert FindExp(r) == None by { assert e == [e[0]] + r; }
      ToggleWithoutMarker(r);
      assert e == ['-'] + r;
    } else {
      var r := ['-'] + e;
      assert FindExp(r) == None by { assert !HasExp(r); }
      ToggleWithoutMarker(r);
      assert r[1..] == e;
    }
  }

  /** What the sign key does to an entry without a marker. */
  lemma ToggleWithoutMarker(e: seq<char>)
    requires FindExp(e) == None
    ensures ToggleSign(e) ==
              if |e| == 0 then "-"
              else if e[0] == '-' then e[1..]
              else if |e| < MAX_ENTRY then ['-'] + e
              else e
  {
    if |e| > 0 && e[0] == '-' {
      assert e[..0] + e[1..] == e[1..];
    } else if 0 < |e| < MAX_ENTRY {
      assert e[..0] + ['-'] + e[0..] == ['-'] + e;
    }
  }
}
