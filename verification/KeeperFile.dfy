/** The file a keeper's positions are kept in: what is written of each, who hands it over, and that what is
    handed over always fits. */
module KeeperFile {
  import opened Common
  import Text

  const KEEPER_POSITIONS: nat := 4096
  const KEEPER_BYTES: nat := 4 * 1024 * 1024
  const MAX_PARTITIONS: nat := 1024
  const NAME_BYTES: nat := 256

  /** Whose keeper it is: a consumer group's, of offsets, or a slot's, of where snapshots and changes resume. */
  datatype Kind = Group | Slot

  datatype Key = Key(stream: string, id: string)

  /** Each partition's acknowledged position, by its rank among positions. A slot's is twice where it resumes,
      and one more once it is done. */
  type Positions = map<Key, nat>

  function MaxPosition(kind: Kind): nat { if kind.Group? then U64_MAX else 2 * U64_MAX + 1 }

  // ----- What is written -----

  function Digit(d: nat): char
    requires d < 10
  {
    (48 + d) as char
  }

  function Digits(n: nat): (text: string)
    ensures text != [] && forall i | 0 <= i < |text| :: Text.In(text[i], 0x20, 0x7e)
  {
    if n < 10 then [Digit(n)] else Digits(n / 10) + [Digit(n % 10)]
  }

  function Hex(d: nat): char
    requires d < 16
  {
    if d < 10 then (48 + d) as char else (87 + d) as char
  }

  /** A character as JSON writes it. */
  function Escaped(c: char): string {
    if c == '"' || c == '\\' then ['\\', c]
    else if c as int == 8 then "\\b"
    else if c as int == 9 then "\\t"
    else if c as int == 10 then "\\n"
    else if c as int == 12 then "\\f"
    else if c as int == 13 then "\\r"
    else if (c as int) < 0x20 then "\\u00" + [Hex(c as int / 16), Hex(c as int % 16)]
    else [c]
  }

  function EscapedAll(text: string): string {
    if text == [] then "" else EscapedAll(text[..|text| - 1]) + Escaped(text[|text| - 1])
  }

  function Quoted(text: string): string { "\"" + EscapedAll(text) + "\"" }

  function Shown(kind: Kind, position: nat): string {
    match kind
    case Group => Digits(position)
    case Slot =>
      "{\"next\":" + Digits(position / 2) + (if position % 2 == 0 then ",\"done\":false}" else ",\"done\":true}")
  }

  /** One position of a file's list. */
  function Entry(kind: Kind, key: Key, position: nat): string {
    "[" + Quoted(key.stream) + ("," + Quoted(key.id) + ("," + Shown(kind, position) + "]"))
  }

  /** The bytes of a file of positions: a list of them, a comma after each but the last. */
  ghost function FileBytes(kind: Kind, positions: Positions): nat {
    if positions == map[] then 2 else Listed(kind, positions) + 1
  }

  ghost function Listed(kind: Kind, positions: Positions): nat
    decreases |positions|
  {
    if positions == map[] then 0
    else
      var key := Pick(positions);
      Text.Bytes(Entry(kind, key, positions[key])) + 1 + Listed(kind, positions - {key})
  }

  ghost function Pick(positions: Positions): (key: Key)
    requires positions != map[]
    ensures key in positions
  {
    var key :| key in positions;
    key
  }

  /** Whether a process opens a file: it has no more bytes than a keeper's, and lists no more positions. */
  ghost predicate Opens(kind: Kind, file: Positions) {
    FileBytes(kind, file) <= KEEPER_BYTES && |file| <= KEEPER_POSITIONS
  }

  // ----- What is handed over -----

  predicate IsName(name: string) {
    0 < |name| && Text.Bytes(name) <= NAME_BYTES && forall i | 0 <= i < |name| :: !Text.Deceives(name[i])
  }

  /** A source's streams: the partitions of each, those it gains or those of its snapshot included. */
  datatype Config = Config(streams: map<string, nat>)

  /** Whether a source connects. */
  ghost predicate Connects(config: Config) {
    forall name | name in config.streams :: IsName(name) && 0 < config.streams[name] <= MAX_PARTITIONS
  }

  function IdOf(kind: Kind, index: nat): string {
    (if kind.Group? then "p" else "snapshot-") + Digits(index)
  }

  ghost predicate IsId(kind: Kind, id: string, partitions: nat) {
    (kind.Slot? && id == "changes") || exists index: nat :: index < partitions && id == IdOf(kind, index)
  }

  /** Whether a source hands a keeper a position: one of a partition its stream has. */
  ghost predicate Hands(kind: Kind, config: Config, key: Key, position: nat) {
    key.stream in config.streams && IsId(kind, key.id, config.streams[key.stream]) && position <= MaxPosition(kind)
  }

  /** Whether some source may have handed a position over. */
  ghost predicate IsHanded(kind: Kind, key: Key, position: nat) {
    IsName(key.stream) && IsId(kind, key.id, MAX_PARTITIONS) && position <= MaxPosition(kind)
  }

  lemma HandsIsHanded(kind: Kind, config: Config, key: Key, position: nat)
    requires Connects(config) && Hands(kind, config, key, position)
    ensures IsHanded(kind, key, position)
  {
  }

  // ----- What is handed over fits -----

  lemma BytesOfThree(a: string, b: string, c: string)
    ensures Text.Bytes(a + b + c) == Text.Bytes(a) + Text.Bytes(b) + Text.Bytes(c)
  {
    Text.BytesOfTwo(a + b, c);
    Text.BytesOfTwo(a, b);
  }

  lemma AsciiBytes(text: string)
    requires forall i | 0 <= i < |text| :: Text.In(text[i], 0x20, 0x7e)
    ensures Text.Bytes(text) == |text|
  {
    Text.AsciiIsClean(text);
  }

  function Tens(k: nat): nat { if k == 0 then 1 else 10 * Tens(k - 1) }

  lemma {:induction false} DigitsAtMost(n: nat, k: nat)
    requires k > 0 && n < Tens(k)
    ensures |Digits(n)| <= k
  {
    if n >= 10 {
      DigitsAtMost(n / 10, k - 1);
    }
  }

  lemma FiveMore(k: nat)
    ensures Tens(k + 5) == 100_000 * Tens(k)
  {
    assert Tens(k + 1) == 10 * Tens(k) && Tens(k + 2) == 10 * Tens(k + 1) && Tens(k + 3) == 10 * Tens(k + 2);
    assert Tens(k + 4) == 10 * Tens(k + 3) && Tens(k + 5) == 10 * Tens(k + 4);
  }

  lemma U64Digits()
    ensures U64_MAX < Tens(20)
  {
    FiveMore(0);
    FiveMore(5);
    FiveMore(10);
    FiveMore(15);
  }

  lemma {:induction false} EscapedAtMost(text: string)
    requires forall i | 0 <= i < |text| :: !Text.Deceives(text[i])
    ensures Text.Bytes(EscapedAll(text)) <= 2 * Text.Bytes(text)
  {
    if text != [] {
      var init, last := text[..|text| - 1], text[|text| - 1];
      EscapedAtMost(init);
      Text.BytesOfTwo(EscapedAll(init), Escaped(last));
      OneEscaped(last);
    }
  }

  lemma OneEscaped(c: char)
    requires !Text.Deceives(c)
    ensures Text.Bytes(Escaped(c)) <= 2 * Text.Width(c)
  {
    assert [c][..0] == [] && ['\\', c][..1] == ['\\'] && ['\\'][..0] == [];
  }

  lemma QuotedAtMost(text: string)
    requires forall i | 0 <= i < |text| :: !Text.Deceives(text[i])
    ensures Text.Bytes(Quoted(text)) <= 2 * Text.Bytes(text) + 2
  {
    BytesOfThree("\"", EscapedAll(text), "\"");
    AsciiBytes("\"");
    EscapedAtMost(text);
  }

  lemma IdIsShort(kind: Kind, id: string)
    requires IsId(kind, id, MAX_PARTITIONS)
    ensures |id| <= 13 && forall i | 0 <= i < |id| :: Text.In(id[i], 0x20, 0x7e)
  {
    if !(kind.Slot? && id == "changes") {
      var index: nat :| index < MAX_PARTITIONS && id == IdOf(kind, index);
      assert Tens(4) == 10_000;
      DigitsAtMost(index, 4);
    }
  }

  lemma IdAtMost(kind: Kind, id: string)
    requires IsId(kind, id, MAX_PARTITIONS)
    ensures Text.Bytes(id) <= 13 && forall i | 0 <= i < |id| :: !Text.Deceives(id[i])
  {
    IdIsShort(kind, id);
    AsciiBytes(id);
    forall i | 0 <= i < |id| ensures !Text.Deceives(id[i]) {
      Text.PlainAscii(id[i]);
    }
  }

  lemma PositionAtMost(kind: Kind, position: nat)
    requires position <= MaxPosition(kind)
    ensures Text.Bytes(Shown(kind, position)) <= 42
  {
    U64Digits();
    var rank := if kind.Group? then position else position / 2;
    DigitsAtMost(rank, 20);
    AsciiBytes(Shown(kind, position));
  }

  lemma EntryAtMost(kind: Kind, key: Key, position: nat)
    requires IsHanded(kind, key, position)
    ensures Text.Bytes(Entry(kind, key, position)) <= 588
  {
    QuotedAtMost(key.stream);
    IdAtMost(kind, key.id);
    QuotedAtMost(key.id);
    PositionAtMost(kind, position);
    var last := "," + Shown(kind, position) + "]";
    var middle := "," + Quoted(key.id) + last;
    BytesOfThree(",", Shown(kind, position), "]");
    BytesOfThree(",", Quoted(key.id), last);
    BytesOfThree("[", Quoted(key.stream), middle);
    AsciiBytes("[");
    AsciiBytes(",");
    AsciiBytes("]");
  }

  ghost predicate AllHanded(kind: Kind, positions: Positions) {
    forall key | key in positions :: IsHanded(kind, key, positions[key])
  }

  lemma {:induction false} ListedAtMost(kind: Kind, positions: Positions)
    requires AllHanded(kind, positions)
    ensures Listed(kind, positions) <= |positions| * 589
    decreases |positions|
  {
    if positions != map[] {
      var key := Pick(positions);
      var rest := positions - {key};
      assert rest.Keys == positions.Keys - {key};
      EntryAtMost(kind, key, positions[key]);
      ListedAtMost(kind, rest);
    }
  }

  /** A file of what sources hand over, of no more positions than a keeper holds, opens. */
  lemma HandedFilesOpen(kind: Kind, file: Positions)
    requires AllHanded(kind, file) && |file| <= KEEPER_POSITIONS
    ensures Opens(kind, file)
  {
    ListedAtMost(kind, file);
    assert |file| * 589 <= 4096 * 589;
  }
}
