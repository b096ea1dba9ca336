/** Exactly what a reader is shown of a text: all of it, each character by its own shape and a run of spaces as
    one, or as many of its characters as leave room for the mark of a cut. */
module TextShown {
  import opened Text

  /** A text as it would be shown without a limit. */
  function Whole(text: string): string {
    if text == [] then ""
    else
      var init, c := text[..|text| - 1], text[|text| - 1];
      Whole(init) + if c != ' ' then Shape(c) else if EndsSpaced(init) then "" else " "
  }

  /** A text is cut exactly where the whole of it does not fit. */
  lemma {:induction false} CutWhereItDoesNotFit(text: string, limit: nat)
    ensures var s := WroteAll(Init(limit), text);
            && (s.cut <==> Bytes(Whole(text)) > limit)
            && s.limit == limit && (!s.cut ==> s.text == Whole(text) && (s.spaced <==> EndsSpaced(text)))
  {
    if text != [] {
      var init, c := text[..|text| - 1], text[|text| - 1];
      CutWhereItDoesNotFit(init, limit);
      BytesOfTwo(Whole(init), if c != ' ' then Shape(c) else if EndsSpaced(init) then "" else " ");
    }
  }

  /** Whether a cut would still have its mark fit after what is shown. */
  predicate LeavesRoom(shown: string, limit: nat) { Bytes(shown) + Bytes(CUT) <= limit }

  /** Whether the first `n` characters of a text are as many as leave room, or none do. */
  ghost predicate IsMost(text: string, room: string -> bool, n: nat) {
    && n <= |text| && (n == 0 || room(text[..n]))
    && forall m | n < m <= |text| :: !room(text[..m])
  }

  lemma MostOfMore(text: string, room: string -> bool, n: nat)
    requires text != [] && IsMost(text[..|text| - 1], room, n)
    ensures if room(text) then IsMost(text, room, |text|)
            else IsMost(text, room, n) && text[..n] == text[..|text| - 1][..n]
  {
    var init := text[..|text| - 1];
    assert text[..|text|] == text && init[..n] == text[..n];
    if !room(text) {
      forall m | n < m <= |text| ensures !room(text[..m]) {
        assert m <= |init| ==> init[..m] == text[..m];
      }
    }
  }

  /** What a text under way would be cut to. */
  function Marked(s: State): string
    requires s.mark <= |s.text|
  {
    s.text[..s.mark]
  }

  /** Whether a text under way would be cut to what it was before, or to all of it where that leaves room. */
  predicate Marks(s: State, w: State) {
    && s.mark <= |s.text| && w.mark <= |w.text|
    && (w.text == s.text ==> Marked(w) == Marked(s))
    && (w.text != s.text ==> Marked(w) == if LeavesRoom(w.text, s.limit) then w.text else Marked(s))
  }

  lemma KeptMarks(s: State, piece: string)
    requires s.mark <= |s.text| && piece != []
    ensures Marks(s, Kept(s, piece))
  {
    var text := s.text + piece;
    assert text[..|text|] == text && text[..s.mark] == s.text[..s.mark];
  }

  lemma WroteMarks(s: State, c: char)
    requires s.mark <= |s.text|
    ensures Marks(s, Wrote(s, c))
  {
    if c == ' ' {
      KeptMarks(s, " ");
    } else {
      var shape := Shape(c);
      assert shape != [];
      KeptMarks(s.(spaced := false), shape);
    }
  }

  lemma CutKeepsTheText(s: State, c: char)
    ensures Wrote(s, c).cut ==> Wrote(s, c).text == s.text
    ensures s.cut ==> Wrote(s, c).cut
  {
  }

  /** A text that was to be cut to all of it where that left room, as `was`, is so again, as `now`. */
  lemma MarkMoves(before: State, after: State, was: string, now: string)
    requires Marks(before, after)
    requires LeavesRoom(was, before.limit) ==> Marked(before) == was
    requires if after.cut then Bytes(now) > before.limit && after.text == before.text
             else after.text == now && before.text == was
    ensures Marked(after) == if LeavesRoom(now, before.limit) then now else Marked(before)
  {
  }

  lemma WroteMoves(text: string, limit: nat)
    requires text != []
    requires WroteAll(Init(limit), text[..|text| - 1]).mark <= |WroteAll(Init(limit), text[..|text| - 1]).text|
    requires var init := text[..|text| - 1];
             LeavesRoom(Whole(init), limit) ==> Marked(WroteAll(Init(limit), init)) == Whole(init)
    ensures var before, after := WroteAll(Init(limit), text[..|text| - 1]), WroteAll(Init(limit), text);
            && after.mark <= |after.text|
            && Marked(after) == if LeavesRoom(Whole(text), limit) then Whole(text) else Marked(before)
  {
    var init, c := text[..|text| - 1], text[|text| - 1];
    var before, after := WroteAll(Init(limit), init), WroteAll(Init(limit), text);
    assert after == Wrote(before, c);
    CutWhereItDoesNotFit(init, limit);
    CutWhereItDoesNotFit(text, limit);
    WroteMarks(before, c);
    CutKeepsTheText(before, c);
    MarkMoves(before, after, Whole(init), Whole(text));
  }

  /** What a text would be cut to is as many of its characters as leave room. */
  lemma {:induction false} MarkedIsMost(text: string, limit: nat, room: string -> bool) returns (n: nat)
    requires forall t :: room(t) == LeavesRoom(Whole(t), limit)
    ensures IsMost(text, room, n)
    ensures WroteAll(Init(limit), text).mark <= |WroteAll(Init(limit), text).text|
    ensures Marked(WroteAll(Init(limit), text)) == Whole(text[..n])
  {
    n := 0;
    if text != [] {
      var init := text[..|text| - 1];
      n := MarkedIsMost(init, limit, room);
      assert init[..|init|] == init && text[..|text|] == text;
      assert room(init) ==> n == |init|;
      WroteMoves(text, limit);
      MostOfMore(text, room, n);
      n := if room(text) then |text| else n;
    }
  }

  /** A text that fits is shown whole; one that does not is cut to the most of its characters that leave room for
      the mark, less the spaces they end in, and ends in the mark. */
  lemma ShownExactly(text: string, limit: nat) returns (n: nat)
    ensures Bytes(Whole(text)) <= limit ==> ShownIn(text, limit) == Whole(text)
    ensures Bytes(Whole(text)) > limit ==>
              && IsMost(text, t => LeavesRoom(Whole(t), limit), n)
              && ShownIn(text, limit) == Trimmed(Whole(text[..n])) + CUT
  {
    CutWhereItDoesNotFit(text, limit);
    n := MarkedIsMost(text, limit, t => LeavesRoom(Whole(t), limit));
  }

  // ----- An escape names its character -----

  function Digit(c: char): nat {
    if '0' <= c <= '9' then c as int - '0' as int
    else if 'a' <= c <= 'f' then c as int - 'a' as int + 10
    else 0
  }

  /** The number hexadecimal digits say. */
  function Value(digits: string): nat {
    if digits == [] then 0 else 16 * Value(digits[..|digits| - 1]) + Digit(digits[|digits| - 1])
  }

  lemma DigitsAreRead(n: nat)
    requires n < 16
    ensures Digit(DIGITS[n]) == n
  {
  }

  lemma {:induction false} HexIsRead(n: nat)
    ensures Value(Hex(n)) == n
  {
    DigitsAreRead(n % 16);
    if n >= 16 {
      HexIsRead(n / 16);
      assert Hex(n)[..|Hex(n)| - 1] == Hex(n / 16);
    } else {
      assert Hex(n)[..0] == "";
    }
  }

  /** Whether an escape is one by a letter. */
  predicate ByLetter(c: char) { c == '\t' || c == '\r' || c == '\n' }

  lemma EscapesSpell(c: char)
    ensures ByLetter(c) ==>
              |Escape(c)| == 2 && Escape(c)[1] == if c == '\t' then 't' else if c == '\r' then 'r' else 'n'
    ensures !ByLetter(c) ==> |Escape(c)| > 4 && Value(Escape(c)[3..|Escape(c)| - 1]) == c as int
  {
    HexIsRead(c as int);
    if !ByLetter(c) {
      assert Escape(c)[3..|Escape(c)| - 1] == Hex(c as int);
    }
  }

  /** No two characters are shown alike: an escape says which one it stands for. */
  lemma ShapesDiffer(c: char, d: char)
    requires Shape(c) == Shape(d)
    ensures c == d
  {
    EscapesSpell(c);
    EscapesSpell(d);
    if !Deceives(c) && !Deceives(d) {
      assert Shape(c)[0] == c && Shape(d)[0] == d;
    }
  }
}
