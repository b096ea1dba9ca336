/** Untrusted text made fit to show: every character that deceives is escaped, runs of spaces are one, and
    what is past a limit is cut. */
module Text {
  /** The mark of a cut. */
  const CUT: string := " [cut]"

  // ----- Characters -----

  predicate In(c: char, first: int, last: int) { first <= c as int <= last }

  predicate Control(c: char) { In(c, 0x0, 0x1f) || In(c, 0x7f, 0x9f) }

  predicate Blank(c: char) {
    || c as int in {0xa0, 0x1680, 0x2028, 0x2029, 0x202f, 0x205f, 0x2800, 0x3000}
    || In(c, 0x2000, 0x200a)
  }

  predicate Format(c: char) {
    || c as int in {0xad, 0x61c, 0x6dd, 0x70f, 0x8e2, 0x180e, 0xfeff, 0x110bd, 0x110cd}
    || In(c, 0x600, 0x605) || In(c, 0x890, 0x891) || In(c, 0x200b, 0x200f) || In(c, 0x202a, 0x202e)
    || In(c, 0x2060, 0x206f) || In(c, 0xfff9, 0xfffb) || In(c, 0x13430, 0x1343f)
    || In(c, 0x1bca0, 0x1bca3) || In(c, 0x1d173, 0x1d17a)
  }

  predicate Ignorable(c: char) {
    || c as int in {0x34f, 0x3164, 0xffa0}
    || In(c, 0x115f, 0x1160) || In(c, 0x17b4, 0x17b5) || In(c, 0x180b, 0x180f) || In(c, 0xfe00, 0xfe0f)
    || In(c, 0xfff0, 0xfff8) || In(c, 0xe0000, 0xe0fff)
  }

  /** Code points without an assigned meaning: private use, and noncharacters. */
  predicate Unmeaning(c: char) {
    || In(c, 0xe000, 0xf8ff) || In(c, 0xfdd0, 0xfdef) || In(c, 0xf0000, 0x10ffff)
    || (c as int) % 0x10000 >= 0xfffe
  }

  /** Whether a character is escaped. */
  predicate Deceives(c: char) {
    Control(c) || Blank(c) || Format(c) || Ignorable(c) || Unmeaning(c)
  }

  lemma PlainAscii(c: char)
    requires In(c, 0x20, 0x7e)
    ensures !Deceives(c)
  {
  }

  /** The bytes of a character in UTF-8. */
  function Width(c: char): nat {
    if c as int < 0x80 then 1 else if c as int < 0x800 then 2 else if c as int < 0x10000 then 3 else 4
  }

  function Bytes(text: string): nat {
    if text == [] then 0 else Bytes(text[..|text| - 1]) + Width(text[|text| - 1])
  }

  lemma {:induction false} BytesOfTwo(a: string, b: string)
    ensures Bytes(a + b) == Bytes(a) + Bytes(b)
  {
    if b == [] {
      assert a + b == a;
    } else {
      assert (a + b)[..|a + b| - 1] == a + b[..|b| - 1];
      BytesOfTwo(a, b[..|b| - 1]);
    }
  }

  const DIGITS: string := "0123456789abcdef"

  /** The hexadecimal digits of a number. */
  function Hex(n: nat): (digits: string)
    ensures Solid(digits)
  {
    AsciiIsSolid(DIGITS[n % 16]);
    if n < 16 then [DIGITS[n % 16]]
    else
      SolidOfTwo(Hex(n / 16), [DIGITS[n % 16]]);
      Hex(n / 16) + [DIGITS[n % 16]]
  }

  /** The escape that names a character. */
  function Escape(c: char): (escape: string)
    ensures Solid(escape)
  {
    AsciiIsSolid('\\'); AsciiIsSolid('u'); AsciiIsSolid('{'); AsciiIsSolid('}');
    AsciiIsSolid('t'); AsciiIsSolid('r'); AsciiIsSolid('n');
    var hex := Hex(c as int);
    SolidOfTwo(['\\'], ['t']); SolidOfTwo(['\\'], ['r']); SolidOfTwo(['\\'], ['n']);
    SolidOfTwo(['\\'], ['u']); SolidOfTwo(['\\'] + ['u'], ['{']);
    SolidOfTwo(['\\'] + ['u'] + ['{'], hex); SolidOfTwo(['\\'] + ['u'] + ['{'] + hex, ['}']);
    if c == '\t' then ['\\'] + ['t'] else if c == '\r' then ['\\'] + ['r'] else if c == '\n' then ['\\'] + ['n']
    else ['\\'] + ['u'] + ['{'] + hex + ['}']
  }

  /** Whether no character of a text deceives. */
  predicate Fair(text: string) {
    text == [] || (Fair(text[..|text| - 1]) && !Deceives(text[|text| - 1]))
  }

  lemma {:induction false} FairAt(text: string)
    ensures Fair(text) <==> forall i | 0 <= i < |text| :: !Deceives(text[i])
  {
    if text != [] {
      FairAt(text[..|text| - 1]);
    }
  }

  lemma {:induction false} FairOfTwo(a: string, b: string)
    ensures Fair(a + b) <==> Fair(a) && Fair(b)
  {
    if b == [] {
      assert a + b == a;
    } else {
      assert (a + b)[..|a + b| - 1] == a + b[..|b| - 1];
      FairOfTwo(a, b[..|b| - 1]);
    }
  }

  predicate SpacedAt(text: string, i: nat) {
    i < |text| && text[i] == ' '
  }

  /** Whether a text may be shown as it is, and has no space. */
  ghost predicate Solid(text: string) {
    text != [] && Fair(text) && forall i: nat :: !SpacedAt(text, i)
  }

  lemma SolidOfTwo(a: string, b: string)
    requires Solid(a) && Solid(b)
    ensures Solid(a + b)
  {
    FairOfTwo(a, b);
    forall i: nat ensures !SpacedAt(a + b, i) {
      assert !SpacedAt(a, i);
      assert i >= |a| ==> !SpacedAt(b, i - |a|);
    }
  }

  lemma AsciiIsSolid(c: char)
    requires In(c, 0x21, 0x7e)
    ensures Solid([c])
  {
    PlainAscii(c);
    assert [c][..0] == [];
  }

  // ----- Showing -----

  /** A text under way: the characters kept, the bytes they may take, the longest prefix of them that leaves
      room for the mark, whether they end in a space, and whether anything was cut. */
  datatype State = State(text: string, limit: nat, mark: nat, spaced: bool, cut: bool)

  function Init(limit: nat): State { State("", limit, 0, false, false) }

  /** Appends a piece where all of it fits, and otherwise ends the text as it is. */
  function Kept(s: State, piece: string): State {
    if Bytes(s.text) + Bytes(piece) > s.limit then s.(cut := true)
    else
      var text := s.text + piece;
      s.(text := text, mark := if Bytes(text) + Bytes(CUT) <= s.limit then |text| else s.mark)
  }

  /** What a character is shown as. */
  function Shape(c: char): string { if Deceives(c) then Escape(c) else [c] }

  function Wrote(s: State, c: char): State {
    if s.cut then s
    else if c == ' ' then
      if s.spaced then s
      else
        var kept := Kept(s, " ");
        if kept.cut then kept else kept.(spaced := true)
    else Kept(s.(spaced := false), Shape(c))
  }

  function WroteAll(s: State, piece: string): State {
    if piece == [] then s else Wrote(WroteAll(s, piece[..|piece| - 1]), piece[|piece| - 1])
  }

  function Trimmed(text: string): (trimmed: string)
    ensures trimmed <= text && (trimmed != [] ==> trimmed[|trimmed| - 1] != ' ')
  {
    if text != [] && text[|text| - 1] == ' ' then Trimmed(text[..|text| - 1]) else text
  }

  /** What a text being shown comes to. */
  function Finished(s: State): string
    requires s.mark <= |s.text|
  {
    if s.cut then Trimmed(s.text[..s.mark]) + CUT else s.text
  }

  class Showing {
    var text: string
    var limit: nat
    var mark: nat
    var spaced: bool
    var cut: bool

    ghost function Now(): State
      reads this
    {
      State(text, limit, mark, spaced, cut)
    }

    constructor (limit: nat)
      ensures Now() == Init(limit)
    {
      text, this.limit, mark, spaced, cut := "", limit, 0, false, false;
    }

    /** `Kept`, and whether the piece was. */
    method Keep(piece: string) returns (kept: bool)
      modifies this
      requires !cut
      ensures Now() == Kept(old(Now()), piece) && kept == !cut
    {
      if Bytes(text) + Bytes(piece) > limit {
        cut := true;
        return false;
      }
      text := text + piece;
      if Bytes(text) + Bytes(CUT) <= limit {
        mark := |text|;
      }
      return true;
    }

    /** Shows a piece of the text; whether there is room for more. */
    method WriteStr(piece: string) returns (room: bool)
      modifies this
      ensures Now() == WroteAll(old(Now()), piece) && room == !cut
    {
      if cut {
        CutStays(Now(), piece);
        return false;
      }
      for i := 0 to |piece|
        invariant Now() == WroteAll(old(Now()), piece[..i]) && !cut
      {
        assert piece[..i + 1][..i] == piece[..i];
        var kept := WriteChar(piece[i]);
        if !kept {
          CutStays(Now(), piece[i + 1..]);
          WritesInTwo(old(Now()), piece[..i + 1], piece[i + 1..]);
          assert piece == piece[..i + 1] + piece[i + 1..];
          return false;
        }
      }
      assert piece[..|piece|] == piece;
      return true;
    }

    /** Shows one character; whether it was kept. */
    method WriteChar(c: char) returns (kept: bool)
      requires !cut
      modifies this
      ensures Now() == Wrote(old(Now()), c) && kept == !cut
    {
      kept := true;
      if c == ' ' {
        if !spaced {
          kept := Keep(" ");
        }
        if kept {
          spaced := true;
        }
      } else {
        spaced := false;
        if Deceives(c) {
          kept := Keep(Escape(c));
        } else {
          kept := Keep([c]);
        }
      }
    }
  }

  /** A text shown in `limit` bytes, as its writer splits it into `pieces`: one result however it
      does. */
  method Shown(pieces: seq<string>, limit: nat) returns (text: string)
    ensures text == ShownIn(Joined(pieces), limit)
  {
    var showing := new Showing(limit);
    var i := 0;
    assert pieces[..0] == [];
    while i < |pieces|
      invariant i <= |pieces| && fresh(showing) && showing.Now() == WroteAll(Init(limit), Joined(pieces[..i]))
    {
      var room := showing.WriteStr(pieces[i]);
      assert pieces[..i + 1][..i] == pieces[..i];
      WritesInTwo(Init(limit), Joined(pieces[..i]), pieces[i]);
      i := i + 1;
    }
    assert pieces[..|pieces|] == pieces;
    KeepsSound(Init(limit), Joined(pieces));
    text := showing.text;
    if showing.cut {
      text := Trimmed(text[..showing.mark]) + CUT;
    }
  }

  function Joined(pieces: seq<string>): string {
    if pieces == [] then "" else Joined(pieces[..|pieces| - 1]) + pieces[|pieces| - 1]
  }

  /** A text shown in `limit` bytes. */
  function ShownIn(text: string, limit: nat): string {
    KeepsSound(Init(limit), text);
    Finished(WroteAll(Init(limit), text))
  }

  lemma {:induction false} CutStays(s: State, piece: string)
    requires s.cut
    ensures WroteAll(s, piece) == s
  {
    if piece != [] {
      CutStays(s, piece[..|piece| - 1]);
    }
  }

  lemma {:induction false} WritesInTwo(s: State, a: string, b: string)
    ensures WroteAll(s, a + b) == WroteAll(WroteAll(s, a), b)
  {
    if b == [] {
      assert a + b == a;
    } else {
      assert (a + b)[..|a + b| - 1] == a + b[..|b| - 1];
      WritesInTwo(s, a, b[..|b| - 1]);
    }
  }

  // ----- What is shown -----

  predicate RunAt(text: string, i: nat) {
    SpacedAt(text, i) && SpacedAt(text, i + 1)
  }

  /** Whether a text holds no character that deceives, and no run of spaces. */
  ghost predicate Clean(text: string) {
    Fair(text) && forall i: nat :: !RunAt(text, i)
  }

  predicate EndsSpaced(text: string) {
    text != [] && text[|text| - 1] == ' '
  }

  lemma CleanOfTwo(a: string, b: string)
    requires Clean(a) && Clean(b) && (SpacedAt(b, 0) ==> !EndsSpaced(a))
    ensures Clean(a + b)
  {
    FairOfTwo(a, b);
    forall i: nat ensures !RunAt(a + b, i) {
      assert !RunAt(a, i);
      assert i >= |a| ==> !RunAt(b, i - |a|);
    }
  }

  lemma CleanPart(text: string, n: nat)
    requires Clean(text) && n <= |text|
    ensures Clean(text[..n])
  {
    FairOfTwo(text[..n], text[n..]);
    assert text == text[..n] + text[n..];
    forall i: nat ensures !RunAt(text[..n], i) {
      assert !RunAt(text, i);
    }
  }

  lemma SolidIsClean(text: string)
    requires Solid(text)
    ensures Clean(text) && !SpacedAt(text, 0) && !EndsSpaced(text)
  {
    assert !SpacedAt(text, |text| - 1);
  }

  lemma SpaceIsClean()
    ensures Clean(" ")
  {
    PlainAscii(' ');
    assert " "[..0] == [];
  }

  /** Whether so many characters of the text leave room for the mark of a cut. */
  ghost predicate Leaves(text: string, mark: nat, limit: nat) {
    mark <= |text| && (mark == 0 || Bytes(text[..mark]) + Bytes(CUT) <= limit)
  }

  lemma LeavesStill(text: string, piece: string, mark: nat, limit: nat)
    requires Leaves(text, mark, limit)
    ensures Leaves(text + piece, mark, limit)
    ensures Bytes(text + piece) + Bytes(CUT) <= limit ==> Leaves(text + piece, |text + piece|, limit)
  {
    assert (text + piece)[..mark] == text[..mark];
    assert (text + piece)[..|text + piece|] == text + piece;
  }

  ghost predicate Sound(s: State) {
    && Clean(s.text) && Bytes(s.text) <= s.limit
    && Leaves(s.text, s.mark, s.limit)
    && (!s.cut ==> (s.spaced <==> EndsSpaced(s.text)))
  }

  lemma KeptIsSound(s: State, piece: string, unspaced: State)
    requires Sound(s) && !s.cut && Clean(piece) && piece != [] && (SpacedAt(piece, 0) ==> !s.spaced)
    requires unspaced == s.(spaced := unspaced.spaced)
    ensures var kept := Kept(unspaced, piece);
            if kept.cut then Sound(kept) else Sound(kept.(spaced := EndsSpaced(piece)))
  {
    if Bytes(s.text) + Bytes(piece) <= s.limit {
      ExtendedIsSound(s, piece);
    }
  }

  lemma ExtendedIsSound(s: State, piece: string)
    requires Sound(s) && !s.cut && Clean(piece) && piece != [] && (SpacedAt(piece, 0) ==> !s.spaced)
    requires Bytes(s.text) + Bytes(piece) <= s.limit
    ensures Sound(Kept(s, piece).(spaced := EndsSpaced(piece)))
  {
    BytesOfTwo(s.text, piece);
    CleanOfTwo(s.text, piece);
    LeavesStill(s.text, piece, s.mark, s.limit);
    EndOfTwo(s.text, piece);
  }

  lemma EndOfTwo(a: string, b: string)
    requires b != []
    ensures EndsSpaced(a + b) <==> EndsSpaced(b)
  {
  }

  lemma WroteIsSound(s: State, c: char)
    requires Sound(s)
    ensures Sound(Wrote(s, c))
  {
    if !s.cut {
      if c == ' ' {
        SpaceIsClean();
        if !s.spaced {
          KeptIsSound(s, " ", s);
        }
      } else {
        ShapeIsSolid(c);
        SolidIsClean(Shape(c));
        KeptIsSound(s, Shape(c), s.(spaced := false));
      }
    }
  }

  lemma ShapeIsSolid(c: char)
    requires c != ' '
    ensures Solid(Shape(c))
  {
    assert [c][..0] == [];
  }

  lemma {:induction false} KeepsSound(s: State, piece: string)
    requires Sound(s)
    ensures Sound(WroteAll(s, piece)) && WroteAll(s, piece).limit == s.limit
  {
    if piece != [] {
      KeepsSound(s, piece[..|piece| - 1]);
      WroteIsSound(WroteAll(s, piece[..|piece| - 1]), piece[|piece| - 1]);
    }
  }

  lemma BytesOfPart(text: string, n: nat)
    requires n <= |text|
    ensures Bytes(text[..n]) <= Bytes(text)
  {
    BytesOfTwo(text[..n], text[n..]);
    assert text == text[..n] + text[n..];
  }

  lemma {:induction false} AsciiIsClean(text: string)
    requires forall i | 0 <= i < |text| :: In(text[i], 0x20, 0x7e)
    ensures Fair(text) && Bytes(text) == |text|
  {
    if text != [] {
      PlainAscii(text[|text| - 1]);
      AsciiIsClean(text[..|text| - 1]);
    }
  }

  lemma CutIsClean()
    ensures Clean(CUT) && Bytes(CUT) == 6
  {
    AsciiIsClean(CUT);
  }

  /** What is shown holds nothing that deceives and no run of spaces, within the limit wherever that
      holds the mark of a cut, or the text was not cut. */
  lemma ShownIsClean(text: string, limit: nat)
    ensures Clean(ShownIn(text, limit))
    ensures Bytes(ShownIn(text, limit)) <= if limit < 6 then 6 else limit
    ensures !WroteAll(Init(limit), text).cut ==> Bytes(ShownIn(text, limit)) <= limit
  {
    KeepsSound(Init(limit), text);
    CutIsClean();
    var s := WroteAll(Init(limit), text);
    if s.cut {
      var kept := s.text[..s.mark];
      var trimmed := Trimmed(kept);
      CleanPart(s.text, |trimmed|);
      BytesOfPart(kept, |trimmed|);
      BytesOfTwo(trimmed, CUT);
      assert kept[..|trimmed|] == trimmed == s.text[..|trimmed|];
      CleanOfTwo(trimmed, CUT);
    }
  }

  /** The characters shown, each by itself. */
  lemma NothingShownDeceives(text: string, limit: nat, i: nat)
    requires i < |ShownIn(text, limit)|
    ensures !Deceives(ShownIn(text, limit)[i])
    ensures i > 0 && ShownIn(text, limit)[i] == ' ' ==> ShownIn(text, limit)[i - 1] != ' '
  {
    ShownIsClean(text, limit);
    FairAt(ShownIn(text, limit));
    assert i > 0 ==> !RunAt(ShownIn(text, limit), i - 1);
  }

  /** A clean text not cut is kept as it is. */
  lemma CleanOneMore(s: State, text: string, c: char)
    requires Clean(text + [c]) && s.text == text && !s.cut && (s.spaced <==> EndsSpaced(text))
    ensures var wrote := Wrote(s, c);
            wrote.cut <==> Bytes(text) + Width(c) > s.limit
    ensures var wrote := Wrote(s, c);
            !wrote.cut ==> wrote.text == text + [c] && (wrote.spaced <==> c == ' ')
  {
    FairOfTwo(text, [c]);
    assert [c][..0] == [];
    assert text != [] ==> !RunAt(text + [c], |text| - 1);
    assert Bytes([c]) == Width(c);
    assert Bytes(" ") == 1 by { AsciiIsClean(" "); }
  }

  lemma {:induction false} CleanIsKept(text: string, limit: nat, n: nat)
    requires Clean(text) && n <= |text| && (Bytes(text) <= limit || !WroteAll(Init(limit), text[..n]).cut)
    ensures var s := WroteAll(Init(limit), text[..n]);
            s.limit == limit && s.text == text[..n] && !s.cut && (s.spaced <==> EndsSpaced(text[..n]))
  {
    if n > 0 {
      var before, c := text[..n - 1], text[n - 1];
      assert text[..n] == before + [c] && text[..n][..n - 1] == before;
      CleanIsKept(text, limit, n - 1);
      CleanPart(text, n);
      BytesOfPart(text, n);
      CleanOneMore(WroteAll(Init(limit), before), before, c);
    }
  }

  /** Showing what was shown changes nothing, for every limit. */
  lemma ShowingAgain(text: string, limit: nat)
    ensures ShownIn(ShownIn(text, limit), limit) == ShownIn(text, limit)
  {
    var shown := ShownIn(text, limit);
    ShownIsClean(text, limit);
    if Bytes(shown) <= limit {
      CleanIsKept(shown, limit, |shown|);
      assert shown[..|shown|] == shown;
    } else {
      OnlyTheMark(text, limit);
      MarkPasses(limit);
    }
  }

  /** Where the limit does not hold the mark, a text that is cut is the mark alone. */
  lemma OnlyTheMark(text: string, limit: nat)
    requires limit < 6 && WroteAll(Init(limit), text).cut
    ensures ShownIn(text, limit) == CUT
  {
    CutIsClean();
    KeepsSound(Init(limit), text);
    assert WroteAll(Init(limit), text).text[..0] == "";
  }

  lemma MarkPasses(limit: nat)
    requires limit < 6
    ensures WroteAll(Init(limit), CUT).cut && ShownIn(CUT, limit) == CUT
  {
    CutIsClean();
    KeepsSound(Init(limit), CUT);
    if !WroteAll(Init(limit), CUT).cut {
      assert CUT[..|CUT|] == CUT;
      CleanIsKept(CUT, limit, |CUT|);
    }
    OnlyTheMark(CUT, limit);
  }

  /** Exactly the limits that hold the mark bound every text shown. */
  lemma LimitsThatHold(limit: nat)
    ensures (forall text :: Bytes(ShownIn(text, limit)) <= limit) <==> limit >= 6
  {
    forall text ensures limit >= 6 ==> Bytes(ShownIn(text, limit)) <= limit {
      ShownIsClean(text, limit);
    }
    if limit < 6 {
      CutIsClean();
      MarkPasses(limit);
    }
  }
}
