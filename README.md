# AmiCalc calculator core in Dafny

This project models the calculator engine of `amicalc.c`, a pocket calculator
for the Amiga. The engine is one `struct CalcState` that the key handlers
change in place. It has five parts:

- the entry editor: a 64-character number buffer with rules for the decimal
  point, the exponent marker and the sign;
- the immediate-execution chain: an accumulator and one pending operator,
  evaluated left to right with no precedence;
- the grouping stack: up to eight saved (accumulator, flag, operator) frames;
- the function keys: operand selection, the inverse flag, the domain checks
  and the write-back to the accumulator;
- the expression trace: a 256-character text that mirrors what was typed,
  keeps a live span equal to the entry, drops its oldest characters on
  overflow, and wraps the last value in a function's name.

The model has two layers.

- **Value layer.** The state is a value: `Calculator.Calc` holds the fields and
  `ExprText.Trace` holds the trace. Every handler is a function on it
  (`Calculator.Step`, `Calculator.TraceStep` and `Calculator.HandleAction`).
  The lemmas in `Properties`, `ExprText`, `EntryEditor`, `Chain` and
  `Scientific` prove what the handlers promise.
- **Object layer.** `Engine.CalcState` is the struct as a class. Its three
  buffers are objects of their own, and each is an array plus explicit
  lengths: `EntryBuf.EntryBuffer`, `Grouping.ParenStack` and
  `TraceBuf.ExprBuffer`. The C functions become methods that shift characters
  with `memmove`/`memcpy`-like loops (`Buffers`) and scan the trace backwards
  with loops. Each method is proved to produce the state the value layer
  describes. `Engine.CalcState.HandleAction` ensures
  `Model() == Calculator.HandleAction(lib, old(Model()), a)`, so every property
  of the value layer holds of the class.

Numbers are `real`. The C library is a value of type `Numeric.Libm` given to the
calculator: `strtod`, `sprintf("%.15g")`, the NaN test and the math functions
are its fields. Only the guards the calculator places around these calls are
modelled.

Where a reading of the program's documentation and the code differ, the model
follows the code:

- `insert_constant` clears the "just produced a result" flag.
- Closing a group goes through `set_result`, so it sets that flag.
- The inverse key is not guarded by the error latch.
- `handle_exp` keeps a finished result and appends the marker to it, while
  `handle_decimal` starts a new number.
- `compute_op` stores the `pow` result before its NaN test, so a failed power
  still overwrites the accumulator.

## Model

| member | source | states |
|---|---|---|
| Buffers.MoveDown | amicalc.c:180-181 | `memmove` towards the front: the moved block lands at `dst`, and everything outside it is unchanged |
| Buffers.MoveUp | amicalc.c:760-761 | `memmove` towards the back (the block is copied from the back), with the same contract as MoveDown |
| Buffers.Blit | amicalc.c:187 | `memcpy` of a string: the buffer is its old prefix followed by the string, and the rest is unchanged |
| EntryBuf.EntryBuffer.constructor | amicalc.c:109-110 | a fresh 64-character entry buffer holding the empty number |
| EntryBuf.EntryBuffer.Clear | amicalc.c:522-523 | the entry becomes empty |
| EntryBuf.EntryBuffer.Push | amicalc.c:528-529 | one character is appended to an entry with room |
| EntryBuf.EntryBuffer.Put | amicalc.c:877 | one character of the entry is replaced |
| EntryBuf.EntryBuffer.Pop | amicalc.c:892-893 | the last character is dropped |
| EntryBuf.EntryBuffer.Write | amicalc.c:538-539 | the entry becomes the formatted number |
| EntryBuf.EntryBuffer.InsertChar | amicalc.c:753-766 | the entry becomes `EntryEditor.InsertChar` of the old one, and the result flag is true exactly when the entry changed |
| EntryBuf.EntryBuffer.RemoveChar | amicalc.c:768-776 | the entry becomes `EntryEditor.RemoveChar` of the old one |
| Grouping.ParenStack.constructor | amicalc.c:117-120 | three fresh arrays of eight frames, none in use |
| Grouping.ParenStack.Clear | amicalc.c:136 | no frame is in use |
| Grouping.ParenStack.Push | amicalc.c:982-985 | each of the three stacks gets the new frame on top |
| Grouping.ParenStack.Pop | amicalc.c:1011-1014 | depth drops by one, the three stacks lose their top, and the returned values are that top frame |
| TraceBuf.ExprBuffer.constructor | amicalc.c:121-123 | a fresh trace buffer holding the empty, detached trace |
| TraceBuf.ExprBuffer.Reset | amicalc.c:143-148 | the trace becomes `ExprText.Reset()` |
| TraceBuf.ExprBuffer.Detach | amicalc.c:1104 | only the live span is detached |
| TraceBuf.ExprBuffer.Set | amicalc.c:150-162 | the trace becomes `ExprText.Set(text)`: the last 256 characters, all of them live |
| TraceBuf.ExprBuffer.AppendText | amicalc.c:164-190 | the trace becomes `ExprText.AppendText` of the old one, with the oldest characters dropped on overflow |
| TraceBuf.ExprBuffer.DropFront | amicalc.c:175-184 | the first `overflow` characters are dropped (all of them when there are no more) and the span is detached |
| TraceBuf.ExprBuffer.AppendChar | amicalc.c:192-199 | the trace becomes `ExprText.AppendChar` of the old one |
| TraceBuf.ExprBuffer.UpdateEntry | amicalc.c:201-233 | the trace becomes the corrected `ExprText.UpdateEntry` of the old one (see Findings) |
| TraceBuf.ExprBuffer.ReplaceLiveSpan | amicalc.c:214-232 | the live span is replaced by the entry, and characters are dropped from the front on overflow |
| TraceBuf.ExprBuffer.DropLiveSpan | amicalc.c:899-906 | the text is cut where the live span started, and the span is detached |
| TraceBuf.ExprBuffer.FindLastValueSpan | amicalc.c:240-309 | found exactly when `ExprText.LastValueSpan` of the text exists, and then returns that span |
| TraceBuf.ExprBuffer.ScanMatchOpen | amicalc.c:246-265 | the backward loop returns the '(' that `ExprText.MatchOpen` finds, or -1 when there is none |
| TraceBuf.ExprBuffer.ScanIdent | amicalc.c:267-277 | the backward loop stops where `ExprText.IdentStart` says the function name starts |
| TraceBuf.ExprBuffer.ScanNumber | amicalc.c:280-308 | the backward loop stops where `ExprText.NumberStart` says the number starts |
| TraceBuf.ExprBuffer.WrapSpan | amicalc.c:311-354 | the trace becomes `ExprText.WrapSpan` of the old one |
| TraceBuf.Wrapped | amicalc.c:314-340 | the scratch buffer holds the text before the span, the prefix, the span, the suffix and the rest |
| TraceBuf.KeepTail | amicalc.c:341-345 | the scratch buffer keeps the last 256 of its characters, moved to the front |
| TraceBuf.ExprBuffer.WrapLastValue | amicalc.c:356-365 | the trace becomes `ExprText.WrapLastValue` of the old one |
| TraceBuf.ExprBuffer.AddOperator | amicalc.c:367-395 | the trace becomes `ExprText.AddOperator` of the old one |
| TraceBuf.ExprBuffer.AddParenOpen | amicalc.c:397-407 | the trace becomes `ExprText.AddParenOpen` of the old one |
| TraceBuf.ExprBuffer.AddParenClose | amicalc.c:409-416 | the trace becomes `ExprText.AddParenClose` of the old one |
| TraceBuf.ExprBuffer.ApplyUnary | amicalc.c:418-475 | the trace becomes `ExprText.ApplyUnary` of the old one |
| ExprText.KeepLast | amicalc.c:171-184 | the result has the text's length, cut down to `n` when the text is longer |
| ExprText.KeepLastKeepsEnd | amicalc.c:171-184 | every ending of the text of at most `n` characters is also the ending of the result |
| ExprText.KeepLastSplits | amicalc.c:171-184 | keeping the last MAX_EXPR characters of a text followed by a short entry keeps the whole entry at the end, after the end of the text |
| ExprText.Reset | amicalc.c:143-148 | defines `expr_reset`: an empty, detached trace |
| ExprText.AppendText | amicalc.c:164-190 | defines `expr_append_text`: the text is appended, the oldest characters are dropped on overflow and an overflow detaches the span; its properties are in AppendKeepsLast |
| ExprText.AppendChar | amicalc.c:192-199 | defines `expr_append_char` as the append of one character; AppendCharShape states its result |
| ExprText.UpdateEntry | amicalc.c:201-233 | defines `expr_update_entry` with the start of a new live span where the entry lands (see Findings); its properties are in UpdateEntryMirrors and UpdateEntryValid |
| ExprText.UpdateEntryAsWritten | amicalc.c:201-233 | defines `expr_update_entry` as written, with the start of a new live span at the length before the append; UpdateEntryAsWrittenLosesSpan exhibits the difference |
| ExprText.ReplaceLiveSpan | amicalc.c:214-232 | defines the attached path of `expr_update_entry`; LiveUpdateMirrors states its result |
| ExprText.WrapSpan | amicalc.c:311-354 | defines `expr_wrap_span`: clamp the span, build text before + prefix + span + suffix + rest, keep the last 256 characters and detach; WrapSpanShape states its result |
| ExprText.WrapLastValue | amicalc.c:356-365 | defines `expr_wrap_last_value`: wrap the last value's span, or leave the trace alone when there is none; WrapLastValueShape states its result |
| ExprText.AddOperator | amicalc.c:367-395 | defines `expr_add_operator`; OperatorReplacesOperator and OperatorEndsTrace state its results |
| ExprText.AddParenOpen | amicalc.c:397-407 | defines `expr_add_paren_open`; ParenOpenTextShape states its result |
| ExprText.AddParenClose | amicalc.c:409-416 | defines `expr_add_paren_close`; ParenCloseTextShape states its result |
| ExprText.ApplyUnary | amicalc.c:418-476 | defines `expr_apply_unary`: commit the entry, or write the accumulator into an empty trace, then wrap the last value in the function's text; ApplyUnaryShape states its result |
| ExprText.Set | amicalc.c:150-162 | the trace stays within 256 characters; a text that fits is kept whole and its live span mirrors it |
| ExprText.AppendKeepsLast | amicalc.c:164-190 | appending keeps exactly the last 256 characters of old text plus new text; the live span survives only when nothing was dropped |
| ExprText.DetachedUpdateMirrors | amicalc.c:207-213 | on a detached trace the entry is appended and becomes the live span, after the end of the old text |
| ExprText.LiveUpdateMirrors | amicalc.c:214-232 | on an attached trace the entry replaces the live span, after the end of the text before it |
| ExprText.UpdateEntryMirrors | amicalc.c:201-233 | after an update with a non-empty entry the live span is attached and holds exactly the entry, and what precedes it is the end of what preceded it before |
| ExprText.UpdateEntryAsWrittenLosesSpan | amicalc.c:207-212 | with the C start rule, a full detached trace plus entry "5" leaves a live span that does not hold "5" |
| ExprText.UpdateEntryValid | amicalc.c:201-233 | any update keeps the trace within bounds |
| ExprText.MatchOpen | amicalc.c:246-265 | a match found by the backward scan is a '(' at or before the start point |
| ExprText.IdentStart | amicalc.c:267-277 | the scan covers only letters, digits and '^', and stops at a character that is not one |
| ExprText.NumberStart | amicalc.c:280-308 | the backward scan never starts the number after the position it scans from |
| ExprText.NumberStartShape | amicalc.c:280-308 | the number holds no operator or parenthesis; a '-' inside follows an exponent marker, and a leading '-' follows an operator, a '(' or the start; before the number is an operator, a parenthesis, a sign or nothing |
| ExprText.LastValueSpan | amicalc.c:240-309 | a span found satisfies `start < end == |text|` |
| ExprText.MatchOpenBalances | amicalc.c:246-265 | the '(' found closes exactly the open groups: the text from it has `depth` more '(' than ')', and every shorter tail has fewer |
| ExprText.NetSnoc | amicalc.c:249-258 | the parenthesis count of a slice grows by the count of the added character |
| ExprText.UnmatchedCloseHasNoSpan | amicalc.c:264-266 | a trailing ')' with no '(' before it gives no span |
| ExprText.GroupBalanced | amicalc.c:246-265 | the '(' matched with a final ')' opens a balanced group: from it on there are as many '(' as ')', and every shorter tail has more ')' |
| ExprText.GroupSpanShape | amicalc.c:243-279 | a span that ends in ')' is a balanced group opened by its matching '(', preceded only by the characters of a function name |
| ExprText.NumberSpanShape | amicalc.c:280-309 | a span that does not end in ')' is one number, with its signs where the scan allows them |
| ExprText.WrapSpanShape | amicalc.c:311-354 | wrapping a span that runs to the end keeps the bound and detaches the span; with room the result is the text before the span + prefix + span + suffix; the trace ends with the suffix |
| ExprText.WrapLastValueShape | amicalc.c:311-365 | wrapping keeps the bound and detaches the span; with room the result is text before the value + prefix + value + suffix; the trace ends with the suffix |
| ExprText.OperatorReplacesOperator | amicalc.c:385-388 | with no entry, an operator after an operator replaces it and leaves the rest alone |
| ExprText.OperatorEndsTrace | amicalc.c:367-395 | after an operator key the trace is within bounds and ends with that operator |
| ExprText.AppendCharShape | amicalc.c:192-199 | one appended character ends up last, right after the old last character |
| ExprText.ParenOpenTextShape | amicalc.c:397-407 | the opening key leaves the trace within bounds, detached, ending in '(' (after '*' for an implicit product) |
| ExprText.ParenCloseTextShape | amicalc.c:409-416 | the closing key leaves the trace within bounds, detached, ending in ')' |
| ExprText.UnaryAffixes | amicalc.c:431-470 | a function key has affixes exactly for the nine function codes; they are at most 8 characters, and the suffix is never empty |
| ExprText.ApplyUnaryShape | amicalc.c:418-475 | a function key keeps the trace within bounds; when it wraps a value, the trace is detached and ends with the function's suffix |
| EntryEditor.IndexOf | amicalc.c:728-731 | `strchr`: the first position holding the character, or none when it does not occur |
| EntryEditor.IndexOfUnique | amicalc.c:728-731 | the first occurrence is the only answer `strchr` can give |
| EntryEditor.FindExp | amicalc.c:726-733 | a marker is found exactly when the entry has one; the position is that of the first 'e', or, when there is no 'e', of the first 'E' |
| EntryEditor.MarkerIndex | amicalc.c:743-748 | the mantissa ends at the first marker of either case |
| EntryEditor.HasDecimal | amicalc.c:740-751 | a '.' is found exactly when one occurs before the first marker |
| EntryEditor.InsertChar | amicalc.c:753-766 | the entry changes exactly when the position is in range and the buffer has room; then `ch` lands at the position, what was before it stays and the rest is shifted right by one; it never outgrows 64 |
| EntryEditor.RemoveChar | amicalc.c:768-776 | with the position inside the entry, what was before it stays and the rest is shifted left by one; otherwise the entry is unchanged |
| EntryEditor.RemoveUndoesInsert | amicalc.c:753-776 | removing what was just inserted gives the entry back |
| EntryEditor.AppendDigit | amicalc.c:526-530 | with room the digit is appended to the entry; a full entry is unchanged |
| EntryEditor.AppendDecimalPoint | amicalc.c:789-815 | an entry with a marker or a point is unchanged; otherwise "" becomes "0.", "-" becomes "-0.", an entry with room gets '.' appended and a full one is unchanged; never more than 64 |
| EntryEditor.AppendExponent | amicalc.c:826-843 | an entry with a marker is unchanged; otherwise "" becomes "0e", "-" becomes "-0e", an entry with room gets 'e' appended and a full one is unchanged; never more than 64 |
| EntryEditor.ToggleSign | amicalc.c:853-883 | the entry never outgrows 64 |
| EntryEditor.DecimalPointRule | amicalc.c:778-816 | the point changes the entry exactly when there is no marker and no point, and there is room (or the entry is "-"); the result has a point: "" gives "0.", "-" gives "-0." and any other entry with room gets '.' appended; a second press changes nothing |
| EntryEditor.NoMarkerAppend | amicalc.c:740-751 | appending a non-marker to an entry without a marker keeps the whole entry in the mantissa |
| EntryEditor.ExponentRule | amicalc.c:818-844 | on any entry below 64 characters the exponent key leaves a marker, and a second press changes nothing |
| EntryEditor.FindExpStable | amicalc.c:726-733 | an edit after the first marker that adds or removes no marker keeps the marker position |
| EntryEditor.ToggleAtMarker | amicalc.c:859-872 | with a marker, the sign key removes a '-' after it, turns a '+' after it into '-', or inserts a '-' after it when there is room |
| EntryEditor.ToggleWithoutMarker | amicalc.c:855-883 | without a marker, the sign key turns an empty entry into "-", drops a leading '-', or puts one in front when there is room |
| EntryEditor.SignRemovedKeepsMarker | amicalc.c:859-872 | removing the '-' after the first marker leaves that marker first |
| EntryEditor.SignInsertedKeepsMarker | amicalc.c:859-872 | inserting a '-' after the first marker leaves that marker first |
| EntryEditor.ExponentSignRemoved | amicalc.c:859-872 | an exponent '-' the sign key removes comes back on the next press |
| EntryEditor.ExponentSignInserted | amicalc.c:859-872 | an exponent '-' the sign key inserts goes away on the next press |
| EntryEditor.LeadingSignRoundTrip | amicalc.c:873-883 | without a marker, two sign presses give a non-empty entry below capacity back |
| EntryEditor.ExponentSignRoundTrip | amicalc.c:859-872 | two sign presses on an entry with a marker give it back |
| EntryEditor.ToggleSignTwice | amicalc.c:846-884 | the sign key is its own inverse on an entry below capacity that has no doubled sign and no '+' right after its marker |
| Chain.ComputeOp | amicalc.c:477-514 | an unknown operator fails and leaves `out` alone; '/' and the root fail on a zero right operand |
| Chain.Intended | amicalc.c:477-514 | the value view of `compute_op` without the out parameter: each operator's value, and none where it fails; ComputeOpMeetsIntended relates the two |
| Chain.ComputeOpMeetsIntended | amicalc.c:477-514 | `compute_op` succeeds exactly where the operator is defined, and then gives the intended value |
| Chain.BasicOperatorsTotal | amicalc.c:479-494 | + - * never fail, and '/' fails exactly on a zero divisor |
| Numeric.Factorial | amicalc.c:650-658 | n! is at least 1 |
| Scientific.DomainChecks | amicalc.c:589-713 | a function key reports a domain error exactly outside its domain; an unknown code is exactly a non-function key |
| Scientific.Evaluate | amicalc.c:575-724 | defines the switch of `handle_unary` on one operand; DomainChecks, FactorialKey and SquareRootKeys state its results |
| Scientific.Truncate | amicalc.c:646-647 | defines the `(long)` cast of a non-negative operand as truncation |
| Scientific.Trig | amicalc.c:661-709 | defines the trig keys: the function of the operand converted from degrees, or the inverse converted to degrees, as the angle mode says |
| Scientific.InDomain | amicalc.c:589-713 | the reference definition of each function key's domain, written apart from Evaluate; DomainChecks relates the two |
| Scientific.FactorialKey | amicalc.c:637-660 | the factorial key computes n! on 0..170, whatever the inverse flag |
| Scientific.SquareRootKeys | amicalc.c:623-634 | the square-root key takes the root of x >= 0, and its inverse squares |
| Calculator.NumberKeyAction | amicalc.c:1066-1120 | a digit or the decimal point resets the trace after a result, edits the entry, and mirrors the new entry in the trace unless the latch is set |
| Calculator.FunctionKeyStep | amicalc.c:1158-1171 | the function keys reach `handle_unary` |
| Calculator.ClearState | amicalc.c:128-141 | defines `clear_state` on the fields; Properties.ClearResets states it |
| Calculator.Initial | amicalc.c:1719-1722 | defines the start state; Properties.InitialValid states it |
| Calculator.Digit | amicalc.c:516-531 | defines `handle_digit` on the fields: a finished result is discarded, then AppendDigit |
| Calculator.InsertConstant | amicalc.c:533-541 | defines `insert_constant`: the entry becomes the formatted constant and the result flag is cleared |
| Calculator.SetResult | amicalc.c:568-573 | defines `set_result`: the entry becomes the formatted value and the result flag is set |
| Calculator.CurrentValue | amicalc.c:553-566 | defines `get_current_value`: the entry, else the accumulator when no operator is pending, else nothing |
| Calculator.Unary | amicalc.c:575-724 | defines `handle_unary` on the fields; Properties.UnaryWritesBack, UnaryNeedsOperand and UnaryFrame state its results |
| Calculator.Decimal | amicalc.c:778-816 | defines `handle_decimal` on the fields: a finished result is discarded, then AppendDecimalPoint |
| Calculator.Exp | amicalc.c:818-844 | defines `handle_exp` on the fields: the entry is kept after a result, then AppendExponent |
| Calculator.Sign | amicalc.c:846-884 | defines `handle_sign` on the fields: ToggleSign |
| Calculator.Backspace | amicalc.c:886-909 | defines `handle_backspace` on the fields: the last character goes |
| Calculator.Operator | amicalc.c:911-940 | defines `handle_operator` on the fields; Properties.OperatorFolds states its results |
| Calculator.EvalPending | amicalc.c:942-962 | defines `eval_pending`: the operand folded with the pending operator, or nothing when there is no operand or the operation fails |
| Calculator.ParenOpen | amicalc.c:964-993 | defines `handle_paren_open` on the fields; Properties.OpenDepth and OpenPushes state its results |
| Calculator.ParenClose | amicalc.c:995-1017 | defines `handle_paren_close` on the fields; Properties.CloseDepth and ClosePops state its results |
| Calculator.Equals | amicalc.c:1019-1064 | defines `handle_equals` on the fields; Properties.ZeroDivisorLatches, EqualsNeedsClosedGroups and EqualsFrame state its results |
| Calculator.Step | amicalc.c:1066-1178 | defines which handler `handle_action` calls for each key; DigitKeyStep, OperatorKeyStep and FunctionKeyStep state the dispatch |
| Calculator.TraceStep | amicalc.c:1066-1178 | defines the trace updates `handle_action` makes around each handler; FunctionKeyTrace and EditKeyTrace state them for the function and editing keys |
| Calculator.HandleAction | amicalc.c:1066-1178 | defines one key press on the whole state; Properties.KeyKeepsValid, ErrorLatchSticky and EditKeysMirror state its results |
| Calculator.SignKeyAsWritten | amicalc.c:1130-1138 | defines the sign key exactly as `handle_action` writes it; Properties.SignKeyAsWrittenKeepsSign exhibits the stale "-" |
| Calculator.PickConstant | amicalc.c:1502-1515 | defines a pick of the constants menu: a finished result clears the trace, then `insert_constant` and `expr_update_entry` |
| Calculator.Display | amicalc.c:1180-1195 | defines `get_display_value`; Properties.DisplayShape states its result |
| Calculator.FunctionKeyAction | amicalc.c:1158-1171 | a function key wraps the trace when the latch is off, then applies the function |
| Calculator.FunctionKeyTrace | amicalc.c:1158-1171 | the trace part of a function key |
| Calculator.EditKeyAction | amicalc.c:1121-1138 | what the exponent and sign keys do to the fields and the trace |
| Calculator.EditKeyTrace | amicalc.c:1121-1138 | the trace part of the exponent and sign keys |
| Engine.FactorialLoop | amicalc.c:650-658 | the loop computes `Numeric.Factorial(n)` |
| Engine.EvaluateKey | amicalc.c:589-713 | the switch gives `Scientific.Evaluate` of its inputs |
| Engine.CalcState.constructor | amicalc.c:1719-1722 | the new state is `Calculator.Initial()` |
| Engine.CalcState.ClearState | amicalc.c:128-141 | the fields become `Calculator.ClearState` of the old ones, and the trace is empty |
| Engine.CalcState.HandleDigit | amicalc.c:516-531 | the fields become `Calculator.Digit` of the old ones |
| Engine.CalcState.InsertConstant | amicalc.c:533-541 | the fields become `Calculator.InsertConstant` of the old ones |
| Engine.CalcState.SetResult | amicalc.c:568-573 | the fields become `Calculator.SetResult` of the old ones |
| Engine.CalcState.GetCurrentValue | amicalc.c:553-566 | returns an operand exactly when `Calculator.CurrentValue` has one, and it is that operand |
| Engine.CalcState.HandleUnary | amicalc.c:575-724 | the fields become `Calculator.Unary` of the old ones |
| Engine.CalcState.HandleDecimal | amicalc.c:778-816 | the fields become `Calculator.Decimal` of the old ones |
| Engine.CalcState.DecimalPoint | amicalc.c:789-815 | the entry becomes `EntryEditor.AppendDecimalPoint` of the old one |
| Engine.CalcState.HandleExp | amicalc.c:818-844 | the fields become `Calculator.Exp` of the old ones |
| Engine.CalcState.ExponentMarker | amicalc.c:826-843 | the entry becomes `EntryEditor.AppendExponent` of the old one |
| Engine.CalcState.HandleSign | amicalc.c:846-884 | the fields become `Calculator.Sign` of the old ones |
| Engine.CalcState.ToggleEntrySign | amicalc.c:853-883 | the entry becomes `EntryEditor.ToggleSign` of the old one |
| Engine.CalcState.HandleBackspace | amicalc.c:886-909 | the fields become `Calculator.Backspace` of the old ones, and the trace is retraced when the live span followed the entry |
| Engine.CalcState.HandleOperator | amicalc.c:911-940 | the fields become `Calculator.Operator` of the old ones, whose left-to-right fold Properties.OperatorFolds states |
| Engine.CalcState.EvalPending | amicalc.c:942-962 | returns a value exactly when `Calculator.EvalPending` has one, and it is that value |
| Engine.CalcState.HandleParenOpen | amicalc.c:964-993 | the fields become `Calculator.ParenOpen` of the old ones |
| Engine.CalcState.PushFrame | amicalc.c:982-992 | the chain is pushed as a frame, and an empty chain starts |
| Engine.CalcState.HandleParenClose | amicalc.c:995-1017 | the fields become `Calculator.ParenClose` of the old ones |
| Engine.CalcState.PopFrame | amicalc.c:1011-1014 | the top frame becomes the chain again |
| Engine.CalcState.HandleEquals | amicalc.c:1019-1064 | the fields become `Calculator.Equals` of the old ones |
| Engine.CalcState.ShowAccumulator | amicalc.c:1060-1063 | the accumulator is written out as a finished result, with no operator pending |
| Engine.CalcState.GetDisplayValue | amicalc.c:1180-1195 | the text is `Calculator.Display` of the fields |
| Engine.CalcState.HandleAction | amicalc.c:1066-1178 | the state becomes `Calculator.HandleAction` of the old one |
| Engine.CalcState.NumberKey | amicalc.c:1068-1076 | a digit or point key does what `Calculator.HandleAction` says |
| Engine.CalcState.OperatorKey | amicalc.c:1079-1100 | an operator key (the power key is the root under the inverse flag) does what `Calculator.HandleAction` says |
| Engine.CalcState.EqualsKey | amicalc.c:1101-1111 | the equals key does what `Calculator.HandleAction` says |
| Engine.CalcState.CommitEntry | amicalc.c:1102-1106 | a live entry is put into the trace and the span detached, while the fields stay as they were |
| Engine.CalcState.EditKey | amicalc.c:1121-1138 | the exponent and sign keys do what `Calculator.HandleAction` says, with the sign-key correction (see Findings) |
| Engine.CalcState.FollowEntry | amicalc.c:1126-1137 | the live span follows the entry; for the sign key it is cut off when the entry became empty |
| Engine.CalcState.ParenOpenKey | amicalc.c:1142-1148 | the '(' key does what `Calculator.HandleAction` says |
| Engine.CalcState.ParenCloseKey | amicalc.c:1149-1154 | the ')' key does what `Calculator.HandleAction` says |
| Engine.CalcState.FunctionKey | amicalc.c:1158-1171 | a function key does what `Calculator.HandleAction` says |
| Engine.CalcState.PickConstant | amicalc.c:1503-1515 | a pick from the constants menu gives `Calculator.PickConstant` of the old state |
| Properties.InitialValid | amicalc.c:1719-1722 | the start state is within bounds, has no groups and shows "0" |
| Properties.FormattedEntryFits | amicalc.c:533-573 | `set_result` and `insert_constant` leave an entry within 64 characters |
| Properties.EqualsKeepsValid | amicalc.c:1019-1064 | equals keeps the fields within bounds |
| Properties.UnaryKeepsValid | amicalc.c:575-724 | a function key keeps the fields within bounds |
| Properties.ParenCloseKeepsValid | amicalc.c:995-1017 | closing a group keeps the fields within bounds |
| Properties.DigitKeyStep | amicalc.c:1067-1076 | the digit keys reach `handle_digit` |
| Properties.OperatorKeyStep | amicalc.c:1079-1087 | the four arithmetic keys reach `handle_operator` with their own code |
| Properties.EditStepFrame | amicalc.c:516-909 | the editing handlers keep the bounds and leave the stack alone |
| Properties.OperatorFrame | amicalc.c:911-940 | `handle_operator` keeps the bounds and leaves the grouping stack alone |
| Properties.OperatorFolds | amicalc.c:911-940 | with an operand typed and an operator pending, a successful `compute_op` puts its value in the accumulator, makes the key's operator pending and empties the entry; a failed one sets the latch and keeps the entry and the pending operator; a number typed with no accumulator or no pending operator becomes the accumulator; with nothing typed only the operator changes, after seeding the accumulator with 0 |
| Properties.EqualsFrame | amicalc.c:1019-1064 | `handle_equals` leaves the grouping stack alone |
| Properties.UnaryFrame | amicalc.c:575-724 | `handle_unary` leaves the grouping stack alone |
| Properties.ChainStepFrame | amicalc.c:911-1064 | the operator and equals handlers keep the bounds and leave the stack alone |
| Properties.FunctionStepFrame | amicalc.c:575-724 | the function-key handler keeps the bounds and leaves the stack alone |
| Properties.OtherStepFrame | amicalc.c:1142-1176 | the other keys keep the bounds, and all but '(' ')' and clear leave the stack alone |
| Properties.StepKeepsValid | amicalc.c:1066-1178 | every handler keeps the entry within 64 characters and the stack within 8 frames |
| Properties.RetraceMirrors | amicalc.c:895-907 | the retrace keeps the bound, and the live span holds exactly the entry, or is detached once the entry is empty |
| Properties.EditTraceKeepsValid | amicalc.c:1067-1141 | the trace of the editing keys stays within 256 characters |
| Properties.ChainTraceKeepsValid | amicalc.c:1078-1171 | the trace of the other keys stays within 256 characters |
| Properties.KeyKeepsValid | amicalc.c:1066-1178 | every key press keeps the entry, stack and trace bounds |
| Properties.RunKeepsValid | amicalc.c:1066-1178 | any sequence of key presses keeps the bounds |
| Properties.ErrorLatchSticky | amicalc.c:518-520 | with the latch set, every key but clear and the inverse toggle changes no field, and the display shows "ERR" |
| Properties.LatchedTrace | amicalc.c:1066-1178 | with the latch set, any key but clear changes the trace only when a digit, point, exponent or sign key follows a result |
| Properties.ErrorLatchRun | amicalc.c:1066-1178 | the latch, the entry, the accumulator and the saved operators survive any run of keys without clear, and the display stays "ERR" |
| Properties.ClearResets | amicalc.c:128-141 | clear turns the latch off, shows "0", empties the chain, the stack and the trace, and keeps the inverse flag and angle mode |
| Properties.InverseKeyOnlyFlips | amicalc.c:1155-1157 | the inverse key only flips the flag, even with the latch set |
| Properties.OpenDepth | amicalc.c:969-972 | opening fails exactly at depth 8; otherwise it pushes one frame |
| Properties.CloseDepth | amicalc.c:1002-1009 | closing fails at depth 0 or when the chain has no value; otherwise it pops one frame |
| Properties.EqualsNeedsClosedGroups | amicalc.c:1026-1029 | equals inside an open group sets the latch |
| Properties.StepKeepsStack | amicalc.c:1066-1178 | keys other than the parentheses and clear never touch the stack |
| Properties.RunCores | amicalc.c:1066-1178 | the trace never feeds back into the fields |
| Properties.RunKeepsStack | amicalc.c:1066-1178 | a run without parentheses or clear leaves the stack as it was |
| Properties.OpenPushes | amicalc.c:975-985 | opening pushes the frame: the typed number times the group when nothing is pending, else the pending chain |
| Properties.ClosePops | amicalc.c:1011-1016 | a successful close restores the top frame and makes the group's value the entry, marked as a result |
| Properties.GroupRestoresFrame | amicalc.c:964-1017 | a group is a round trip: the stack and the pending chain come back, and the group's value is the entry |
| Properties.ChainSuffix | amicalc.c:911-940 | after `x o1 y`, the keys `o2 z =` fold the pending operation into the accumulator, then apply `o2` and show the result |
| Properties.ChainLeftToRight | amicalc.c:911-940 | `x o1 y o2 z =` computes (x o1 y) o2 z, with no precedence |
| Properties.ChainPrefix | amicalc.c:911-940 | after `x o1 y` the accumulator holds x, o1 is pending, and y is typed |
| Properties.RunCoreAppend | amicalc.c:1066-1178 | running two key sequences in turn is running their concatenation |
| Properties.RunCoreSteps | amicalc.c:1066-1178 | a run is its first step followed by the rest |
| Properties.LeadingOperatorSeedsZero | amicalc.c:918-921 | an operator with nothing typed and no accumulator applies to 0 |
| Properties.ZeroDivisorLatches | amicalc.c:1045-1050 | dividing by zero at equals sets the latch, keeps the accumulator and shows "ERR" |
| Properties.UnaryWritesBack | amicalc.c:718-723 | a function result becomes the entry; it also goes to the accumulator exactly when the operand came from there |
| Properties.UnaryNeedsOperand | amicalc.c:560-565 | with an operator pending and nothing typed, a function key changes nothing |
| Properties.ResultThenExponentOrPoint | amicalc.c:783-787 | after a result, the exponent key continues it while the point starts "0." |
| Properties.EditKeysMirror | amicalc.c:1067-1141 | the editing keys keep the live span equal to the entry, and after a digit or point it is attached |
| Properties.EditRunMirrors | amicalc.c:1067-1141 | typing a number key by key keeps the live span equal to the entry |
| Properties.SignKeyAsWrittenKeepsSign | amicalc.c:1130-1138 | as written, two sign presses from the start leave "-" in the live span of an empty entry; the corrected key detaches it |
| Properties.DisplayShape | amicalc.c:1180-1195 | the display is 1 to 64 characters: "ERR" when latched, else the entry, else the accumulator, else "0" |

## Left out

- The Intuition user interface (amicalc.c:1197-1796) is not part of this model: window, menus, drawing, hit-testing and the event loop. Only the constants pick of the menu handler is kept, as `Engine.CalcState.PickConstant`. The angle-mode and trace-display menu items only set `angle_mode` and `show_expr`, which the model treats as plain fields.
- Floating point: numbers are exact reals. `deg_to_rad`, `rad_to_deg` and the factorial product are exact. The NaN test is `Libm.isNaN`, and `pow`, `exp`, `log`, `sqrt` and the trig functions are uninterpreted fields of `Libm`.
- `strtod` and `sprintf("%.15g")` are `Libm.parse` and `Libm.format`. A formatted number is assumed to be 1 to 64 characters (the `Numeric.Formatted` type), and `log(10.0)` is assumed non-zero (`Libm.WellFormed`).
- Scientific.Truncate: the `(long)` cast is the floor of a non-negative value; a value beyond the range of `long` is not modelled.
- The NUL terminators the C code writes after each edit are not modelled: every buffer carries an explicit length, and the arrays have MAX_ENTRY and MAX_EXPR cells.
- TraceBuf.ExprBuffer.WrapSpan: requires `start <= end`, `start <= expr_len` and `end >= 0`, and that the affixes fit the 64 spare cells of the scratch buffer. The C code needs these to stay inside its buffers, and its only caller passes a span found by the scan and affixes of at most 8 characters.
- TraceBuf.ExprBuffer.UpdateEntry and ExprText.UpdateEntry: the start of a new live span is where the entry lands, not the C value (see Findings).
- Engine.CalcState.EditKey: the sign key cuts off the live span when it empties the entry, instead of leaving the trace alone as the C code does (see Findings).
- Calculator.ParenClose: has a branch for stacks of different lengths, which the three arrays of the class cannot produce.

## Findings

| source | as written | input that shows it | evidently intended | confidence | as-written member | corrected member |
|---|---|---|---|---|---|---|
| amicalc.c:207-212 | on the detached path, `expr_update_entry` sets `expr_entry_start` to the text length from before the append, but the append may have dropped characters from the front | a detached trace of 256 characters and the entry "5": the start becomes 256 while the text is still 256 long, so the live span is empty instead of "5" | the live span starts where the entry landed, at the new length minus the entry length | not executed | ExprText.UpdateEntryAsWritten, ExprText.UpdateEntryAsWrittenLosesSpan | ExprText.UpdateEntry, ExprText.UpdateEntryMirrors |
| amicalc.c:1130-1138 | after `handle_sign` empties the entry, `handle_action` calls `expr_update_entry`, which returns early on an empty entry | from the start state, the keys `S S`: the entry is empty but the live span still shows "-" | the live span is cut off, as `handle_backspace` does when it empties the entry | not executed | Calculator.SignKeyAsWritten, Properties.SignKeyAsWrittenKeepsSign | Properties.RetraceMirrors, Properties.EditKeysMirror |
