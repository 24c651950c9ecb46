/** TXT records (section 6 of RFC 6763): the writer in components/mdns/mdns_send.c and the two builders that
    read them in components/mdns/mdns_receive.c. */
module TxtRecord {
  import opened Common
  import opened Octets

  const EQUALS: Byte := 0x3D
  const ITEM_MAX := 255

  datatype Item = Item(key: seq<Byte>, value: Option<seq<Byte>>)

  // ------------------------------------------------------------------ writing

  function Body(x: Item): (r: seq<Byte>) {
    x.key + if x.value.Some? then [EQUALS] + x.value.value else []
  }

  /** mdns_priv_append_one_txt_record_entry; the length is stored in one byte. */
  function Entry(x: Item): (r: seq<Byte>) {
    [|Body(x)| % 256] + Body(x)
  }

  function Entries(items: seq<Item>): (r: seq<Byte>) {
    if items == [] then [] else Entry(items[0]) + Entries(items[1..])
  }

  /** The data of the record; without items it is one zero byte. */
  function Written(items: seq<Item>): (r: seq<Byte>) {
    if Entries(items) == [] then [0] else Entries(items)
  }

  /** The length that the collision check computes beforehand. */
  function LengthOf(items: seq<Item>): (n: nat) {
    if items == [] then 0
    else
      var x := items[0];
      1 + |x.key| + (if x.value.Some? then |x.value.value| + 1 else 0) + LengthOf(items[1..])
  }

  lemma {:induction false} LengthIsWritten(items: seq<Item>)
    ensures LengthOf(items) == |Entries(items)|
  {
    if items != [] {
      LengthIsWritten(items[1..]);
    }
  }

  // ------------------------------------------------------------------ reading

  /** The strings in the data; empty ones are skipped, and one that runs over the end is an error. */
  function Pieces(data: seq<Byte>): (r: Option<seq<seq<Byte>>>)
    decreases |data|
  {
    if data == [] then Some([])
    else
      var n, rest := data[0] as nat, data[1..];
      if n == 0 then Pieces(rest)
      else if n > |rest| then None
      else
        var more := Pieces(rest[n..]);
        if more.None? then None else Some([rest[..n]] + more.value)
  }

  /** How far the key goes. */
  function KeyLength(piece: seq<Byte>): (n: nat)
    ensures n <= |piece| && (forall i | 0 <= i < n :: piece[i] != EQUALS) && (n < |piece| ==> piece[n] == EQUALS)
  {
    if piece == [] || piece[0] == EQUALS then 0 else 1 + KeyLength(piece[1..])
  }

  /** A copy with strndup ends at a zero byte. */
  function UpToZero(s: seq<Byte>): (r: seq<Byte>) {
    if s == [] || s[0] == 0 then [] else [s[0]] + UpToZero(s[1..])
  }

  /** parse_txt_item_data: a string without key is no item. */
  function ParsePiece(piece: seq<Byte>): (r: Option<Item>) {
    var n := KeyLength(piece);
    if piece != [] && piece[0] == EQUALS then None
    else Some(Item(UpToZero(piece[..n]), if n < |piece| then Some(piece[n + 1..]) else None))
  }

  function ParseAll(pieces: seq<seq<Byte>>): (r: seq<Item>) {
    if pieces == [] then []
    else
      var x := ParsePiece(pieces[0]);
      (if x.Some? then [x.value] else []) + ParseAll(pieces[1..])
  }

  lemma ParseNext(piece: seq<Byte>, more: seq<seq<Byte>>)
    ensures ParseAll([piece] + more) ==
            (if ParsePiece(piece).Some? then [ParsePiece(piece).value] else []) + ParseAll(more)
  {
    assert ([piece] + more)[1..] == more;
  }

  /** What reading gives: one byte is an empty record whatever it is. */
  function Parsed(data: seq<Byte>): (r: Option<seq<Item>>) {
    if |data| == 1 then Some([])
    else
      var pieces := Pieces(data);
      if pieces.None? then None else Some(ParseAll(pieces.value))
  }

  // ------------------------------------------------------------------ the bytes

  /** Byte by byte: each item as a length of one byte, its key and, if it has one, an equals sign and its value. */
  ghost predicate Holds(data: seq<Byte>, items: seq<Item>)
    decreases |items|
  {
    if items == [] then data == []
    else
      var x := items[0];
      var k, n := |x.key|, |x.key| + if x.value.Some? then 1 + |x.value.value| else 0;
      && |data| > n && data[0] == n % 256 && data[1..k + 1] == x.key
      && (x.value.Some? ==> data[k + 1] == 0x3D && data[k + 2..n + 1] == x.value.value)
      && Holds(data[n + 1..], items[1..])
  }

  lemma {:induction false} EntriesHeld(items: seq<Item>)
    ensures Holds(Entries(items), items)
  {
    if items != [] {
      EntriesHeld(items[1..]);
      var x, rest := items[0], Entries(items[1..]);
      assert Entries(items) == [|Body(x)| % 256] + Body(x) + rest;
      assert Entries(items)[|Body(x)| + 1..] == rest;
    }
  }

  /** What is written: the items, or one zero byte if there are none (section 6.1 of RFC 6763). */
  lemma WrittenExactly(items: seq<Item>)
    ensures if items == [] then Written(items) == [0] else Holds(Written(items), items)
  {
    EntriesHeld(items);
  }

  // ------------------------------------------------------------------ the round trip

  /** An item that can be read back. */
  predicate Sound(x: Item) {
    x.key != [] && EQUALS !in x.key && 0 !in x.key
  }

  predicate Fits(x: Item) {
    |Body(x)| <= ITEM_MAX
  }

  lemma {:induction false} KeyOfBody(key: seq<Byte>, rest: seq<Byte>)
    requires EQUALS !in key && (rest == [] || rest[0] == EQUALS)
    ensures KeyLength(key + rest) == |key|
  {
    if key == [] {
      assert key + rest == rest;
    } else {
      assert (key + rest)[1..] == key[1..] + rest && key[0] in key;
      KeyOfBody(key[1..], rest);
    }
  }

  lemma {:induction false} NoZero(s: seq<Byte>)
    ensures UpToZero(s) == s <==> 0 !in s
    ensures |UpToZero(s)| <= |s|
    ensures forall x <- UpToZero(s) :: x in s && x != 0
  {
    if s != [] {
      assert s == [s[0]] + s[1..];
      NoZero(s[1..]);
    }
  }

  /** Exactly the sound items are read back as they were. */
  lemma ItemRoundTrip(x: Item)
    ensures ParsePiece(Body(x)) == Some(x) <==> Sound(x) || Body(x) == []
  {
    var body := Body(x);
    var n := KeyLength(body);
    if Sound(x) {
      KeyOfBody(x.key, if x.value.Some? then [EQUALS] + x.value.value else []);
      assert body[..n] == x.key;
      NoZero(x.key);
      assert x.key[0] in x.key && body[0] == x.key[0];
      assert x.value.Some? ==> body[n + 1..] == x.value.value;
    }
    if body != [] && ParsePiece(body) == Some(x) {
      NoZero(body[..n]);
      forall b | b in x.key ensures b != EQUALS && b != 0 {
        assert b in body[..n];
      }
      assert body[0] != EQUALS;
      assert Sound(x);
    }
  }

  lemma EntryIsPiece(x: Item, rest: seq<Byte>)
    requires Fits(x) && Body(x) != [] && Pieces(rest).Some?
    ensures Pieces(Entry(x) + rest) == Some([Body(x)] + Pieces(rest).value)
  {
    var data, n := Entry(x) + rest, |Body(x)|;
    PiecesJoin(data, 0, n);
    assert data[0..] == data && data[1 + n..] == rest && data[1..1 + n] == Body(x);
  }

  lemma {:induction false} PiecesOfEntries(items: seq<Item>)
    requires forall x <- items :: Fits(x) && Body(x) != []
    ensures Pieces(Entries(items)) == Some(Bodies(items))
  {
    if items != [] {
      assert items[0] in items && forall y <- items[1..] :: y in items;
      PiecesOfEntries(items[1..]);
      EntryIsPiece(items[0], Entries(items[1..]));
    }
  }

  function Bodies(items: seq<Item>): (r: seq<seq<Byte>>) {
    if items == [] then [] else [Body(items[0])] + Bodies(items[1..])
  }

  lemma {:induction false} BodiesParse(items: seq<Item>)
    requires forall x <- items :: Sound(x)
    ensures ParseAll(Bodies(items)) == items
  {
    if items != [] {
      assert items[0] in items && forall y <- items[1..] :: y in items;
      ItemRoundTrip(items[0]);
      BodiesParse(items[1..]);
      assert Bodies(items)[1..] == Bodies(items[1..]);
    }
  }

  /** Items that fit and have a key without '=' come back in order. */
  lemma RoundTrip(items: seq<Item>)
    requires forall x <- items :: Sound(x) && Fits(x)
    ensures Parsed(Written(items)) == Some(items)
  {
    if items != [] {
      assert items[0] in items;
      PiecesOfEntries(items);
      BodiesParse(items);
      assert |Entries(items)| >= |Entry(items[0])| >= 2;
    }
  }

  lemma {:induction false} AtMostOneEach(pieces: seq<seq<Byte>>)
    ensures |ParseAll(pieces)| <= |pieces|
  {
    if pieces != [] {
      AtMostOneEach(pieces[1..]);
    }
  }

  lemma {:induction false} ParsedAreSound(items: seq<Item>)
    requires (forall x <- items :: Body(x) != []) && ParseAll(Bodies(items)) == items
    ensures forall x <- items :: Sound(x)
  {
    if items != [] {
      var rest := items[1..];
      assert items == [items[0]] + rest && items[0] in items && forall y <- rest :: y in items;
      assert Bodies(items)[1..] == Bodies(rest);
      AtMostOneEach(Bodies(rest));
      BodiesLength(rest);
      ItemRoundTrip(items[0]);
      assert ParsePiece(Body(items[0])).Some?;
      assert ParseAll(Bodies(rest)) == rest;
      ParsedAreSound(rest);
    }
  }

  lemma {:induction false} BodiesLength(items: seq<Item>)
    ensures |Bodies(items)| == |items|
  {
    if items != [] {
      BodiesLength(items[1..]);
    }
  }

  ghost predicate Short(pieces: seq<seq<Byte>>) {
    forall piece <- pieces :: |piece| <= ITEM_MAX
  }

  lemma {:induction false} PiecesAreShort(data: seq<Byte>)
    ensures Pieces(data).Some? ==> Short(Pieces(data).value)
    decreases |data|
  {
    if data != [] {
      var n, rest := data[0] as nat, data[1..];
      if n == 0 {
        PiecesAreShort(rest);
      } else if n <= |rest| {
        PiecesAreShort(rest[n..]);
      }
    }
  }

  lemma ParsedFits(piece: seq<Byte>)
    requires |piece| <= ITEM_MAX
    ensures ParsePiece(piece).Some? ==> Fits(ParsePiece(piece).value)
  {
    NoZero(piece[..KeyLength(piece)]);
  }

  /** Nothing that was read is too long to write. */
  lemma {:induction false} ParsedFit(pieces: seq<seq<Byte>>)
    requires Short(pieces)
    ensures forall x <- ParseAll(pieces) :: Fits(x)
  {
    if pieces != [] {
      assert pieces[0] in pieces && forall p <- pieces[1..] :: p in pieces;
      ParsedFits(pieces[0]);
      ParsedFit(pieces[1..]);
    }
  }

  lemma EmptyIsSkipped(x: Item, rest: seq<Byte>)
    requires Body(x) == []
    ensures Pieces(Entry(x) + rest) == Pieces(rest)
  {
    assert (Entry(x) + rest)[1..] == rest;
  }

  /** An item without text is written but not read. */
  lemma {:induction false} EmptiesAreLost(items: seq<Item>)
    requires forall x <- items :: Fits(x)
    ensures Pieces(Entries(items)).Some? && |Pieces(Entries(items)).value| <= |items|
    ensures |Pieces(Entries(items)).value| == |items| ==> forall x <- items :: Body(x) != []
  {
    if items != [] {
      var first, rest := items[0], items[1..];
      assert items == [first] + rest && first in items && forall y <- rest :: y in items;
      EmptiesAreLost(rest);
      if Body(first) == [] {
        EmptyIsSkipped(first, Entries(rest));
      } else {
        EntryIsPiece(first, Entries(rest));
      }
    }
  }

  lemma ReadBackFits(items: seq<Item>)
    requires items != [] && Parsed(Written(items)) == Some(items)
    ensures Pieces(Entries(items)).Some? && ParseAll(Pieces(Entries(items)).value) == items
    ensures forall x <- items :: Fits(x)
  {
    assert Entries(items) == Entry(items[0]) + Entries(items[1..]);
    PiecesAreShort(Entries(items));
    ParsedFit(Pieces(Entries(items)).value);
  }

  /** And only those: whatever the items are, they come back exactly when every one has a key, free of '=' and
      zero, and a text of at most 255 bytes. */
  lemma RoundTripExactly(items: seq<Item>)
    ensures Parsed(Written(items)) == Some(items) <==> forall x <- items :: Sound(x) && Fits(x)
  {
    if forall x <- items :: Sound(x) && Fits(x) {
      RoundTrip(items);
    }
    if items != [] && Parsed(Written(items)) == Some(items) {
      ReadBackFits(items);
      EmptiesAreLost(items);
      AtMostOneEach(Pieces(Entries(items)).value);
      PiecesOfEntries(items);
      ParsedAreSound(items);
    }
  }

  // ------------------------------------------------------------------ the readers as the code runs them

  lemma {:induction false} PiecesJoin(data: seq<Byte>, i: nat, n: nat)
    requires i < |data| && n == data[i] as nat
    ensures n == 0 ==> Pieces(data[i..]) == Pieces(data[i + 1..])
    ensures n > |data| - i - 1 ==> Pieces(data[i..]) == None
    ensures 0 < n <= |data| - i - 1 ==>
              var more := Pieces(data[i + 1 + n..]);
              Pieces(data[i..]) == if more.None? then None else Some([data[i + 1..i + 1 + n]] + more.value)
  {
    assert data[i..][1..] == data[i + 1..];
    if 0 < n <= |data| - i - 1 {
      assert data[i + 1..][n..] == data[i + 1 + n..] && data[i + 1..][..n] == data[i + 1..i + 1 + n];
    }
  }

  /** get_txt_items_count: -1 for an error */
  method CountItems(data: seq<Byte>) returns (count: int)
    ensures |data| == 1 ==> count == 0
    ensures |data| != 1 ==> count == if Pieces(data).None? then -1 else |Pieces(data).value|
  {
    if |data| == 1 {
      return 0;
    }
    count := 0;
    var i := 0;
    assert data[0..] == data;
    while i < |data|
      invariant 0 <= i <= |data| && count >= 0
      invariant Pieces(data).None? <==> Pieces(data[i..]).None?
      invariant Pieces(data).Some? ==> |Pieces(data).value| == count + |Pieces(data[i..]).value|
    {
      var n := data[i] as int;
      PiecesJoin(data, i, n);
      i := i + 1;
      if n == 0 {
        continue;
      }
      if n > |data| - i {
        return -1;
      }
      i := i + n;
      count := count + 1;
    }
  }

  /** get_txt_item_len and parse_txt_item_data */
  method ReadItem(piece: seq<Byte>) returns (x: Option<Item>)
    requires piece != []
    ensures x == ParsePiece(piece)
  {
    if piece[0] == EQUALS {
      return None;
    }
    var n := 0;
    while n < |piece| && piece[n] != EQUALS
      invariant 0 <= n <= |piece| && KeyLength(piece) == n + KeyLength(piece[n..])
    {
      assert piece[n..][1..] == piece[n + 1..];
      n := n + 1;
    }
    x := Some(Item(UpToZero(piece[..n]), if n < |piece| then Some(piece[n + 1..]) else None));
  }

  /** The items so far and those in the rest of the data are all. */
  ghost predicate Progress(data: seq<Byte>, i: nat, items: seq<Item>, count: nat) {
    && i <= |data| && Pieces(data).Some? && Pieces(data[i..]).Some?
    && ParseAll(Pieces(data).value) == items + ParseAll(Pieces(data[i..]).value)
    && |items| + |Pieces(data[i..]).value| <= count
  }

  lemma ProgressStarts(data: seq<Byte>, count: nat)
    requires Pieces(data).Some? && count == |Pieces(data).value|
    ensures Progress(data, 0, [], count)
  {
    assert data[0..] == data;
  }

  lemma ProgressSkips(data: seq<Byte>, i: nat, items: seq<Item>, count: nat)
    requires Progress(data, i, items, count) && i < |data| && data[i] == 0
    ensures Progress(data, i + 1, items, count)
  {
    PiecesJoin(data, i, 0);
  }

  lemma ProgressReads(data: seq<Byte>, i: nat, items: seq<Item>, count: nat, n: nat)
    requires Progress(data, i, items, count) && i < |data| && data[i] == n && n != 0
    ensures i + 1 + n <= |data|
    ensures var x := ParsePiece(data[i + 1..i + 1 + n]);
            Progress(data, i + 1 + n, if x.Some? then items + [x.value] else items, count)
  {
    PiecesJoin(data, i, n);
    var piece, more := data[i + 1..i + 1 + n], Pieces(data[i + 1 + n..]).value;
    ParseNext(piece, more);
    var x := ParsePiece(piece);
    assert x.Some? ==> items + ([x.value] + ParseAll(more)) == items + [x.value] + ParseAll(more);
  }

  lemma ProgressEnds(data: seq<Byte>, i: nat, items: seq<Item>, count: nat)
    requires Progress(data, i, items, count) && (i == |data| || |items| == count)
    ensures ParseAll(Pieces(data).value) == items
  {
    assert i == |data| ==> data[i..] == [];
    assert Pieces(data[i..]).value == [];
  }

  /** Whether an allocation succeeds. */
  method Allocate(ample: bool) returns (ok: bool)
    ensures ample ==> ok
  {
    ok := *;
    ok := ok || ample;
  }

  /** The loop that both builders have: items are read until the data or the count is used up, or memory is. */
  method ReadItems(data: seq<Byte>, count: nat, ample: bool) returns (ok: bool, items: seq<Item>)
    requires |data| != 1 && Pieces(data) != None && count == |Pieces(data).value|
    ensures (ample ==> ok) && if ok then Parsed(data) == Some(items) else items == []
  {
    ok, items := true, [];
    var i := 0;
    ProgressStarts(data, count);
    while i < |data| && |items| < count
      invariant ok && Progress(data, i, items, count)
      decreases |data| - i
    {
      var n := data[i] as int;
      if n == 0 {
        ProgressSkips(data, i, items, count);
        i := i + 1;
        continue;
      }
      ProgressReads(data, i, items, count, n);
      if i + 1 + n > |data| {
        return false, [];
      }
      var enough := Allocate(ample);
      if !enough {
        return false, [];
      }
      var x := ReadItem(data[i + 1..i + 1 + n]);
      items := if x.Some? then items + [x.value] else items;
      i := i + 1 + n;
    }
    ProgressEnds(data, i, items, count);
  }

  /** result_txt_create */
  method BuildArray(data: seq<Byte>, ample: bool) returns (items: seq<Item>)
    ensures items == [] || Parsed(data) == Some(items)
    ensures ample && Parsed(data).Some? ==> Parsed(data) == Some(items)
  {
    var count := CountItems(data);
    if count <= 0 {
      NoPieces(data);
      return [];
    }
    var ok := Allocate(ample);
    if !ok {
      return [];
    }
    ok, items := ReadItems(data, count, ample);
  }

  /** result_txt_linked_list_create */
  method BuildList(data: seq<Byte>, ample: bool) returns (ok: bool, items: seq<Item>)
    ensures if ok then Parsed(data) == Some(items) else items == []
    ensures ample ==> ok == Parsed(data).Some?
  {
    var count := CountItems(data);
    if count < 0 {
      return false, [];
    }
    if count == 0 {
      NoPieces(data);
      return true, [];
    }
    ok, items := ReadItems(data, count, ample);
  }

  lemma NoPieces(data: seq<Byte>)
    requires |data| == 1 || Pieces(data).None? || Pieces(data).value == []
    ensures Parsed(data) == None || Parsed(data) == Some([])
  {
  }

  /** With memory the two builders never disagree, and without it they yield the same items or none. */
  method BothBuilders(data: seq<Byte>, ample: bool) returns (a: seq<Item>, ok: bool, b: seq<Item>)
    ensures a == b || a == [] || b == []
    ensures ample ==> a == b && (if ok then Parsed(data) == Some(b) else Parsed(data).None?)
  {
    a := BuildArray(data, ample);
    ok, b := BuildList(data, ample);
  }

  // ------------------------------------------------------------------ the writer as the code runs it

  /** mdns_priv_append_one_txt_record_entry: 0 when the entry does not fit in the packet */
  method AppendEntry(packet: array<Byte>, index: nat, x: Item) returns (n: nat)
    requires index < packet.Length
    modifies packet
    ensures n == if index + |Entry(x)| >= packet.Length then 0 else |Entry(x)|
    ensures n > 0 ==> packet[..index + n] == old(packet[..index]) + Entry(x)
  {
    var body := Body(x);
    if index + |body| + 1 >= packet.Length {
      return 0;
    }
    packet[index] := |body| % 256;
    for i := 0 to |body|
      invariant packet[..index + 1 + i] == old(packet[..index]) + [|body| % 256] + body[..i]
    {
      packet[index + 1 + i] := body[i];
      assert packet[..index + 2 + i] == packet[..index + 1 + i] + [body[i]];
      assert body[..i + 1] == body[..i] + [body[i]];
    }
    assert body[..|body|] == body;
    n := |body| + 1;
  }

  lemma {:induction false} EntriesOneMore(items: seq<Item>, k: nat)
    requires k < |items|
    ensures Entries(items[..k + 1]) == Entries(items[..k]) + Entry(items[k])
  {
    if k == 0 {
      assert items[..1] == [items[0]] && items[..1][1..] == [] && items[..0] == [];
    } else {
      EntriesOneMore(items[1..], k - 1);
      assert items[..k + 1][1..] == items[1..][..k] && items[..k][1..] == items[1..][..k - 1];
      assert items[1..][k - 1] == items[k];
    }
  }

  /** The data part of append_txt_record: everything is written, or the packet is too small. */
  method AppendTxt(packet: array<Byte>, index: nat, items: seq<Item>) returns (n: nat)
    requires index < packet.Length
    modifies packet
    ensures n > 0 ==> n == |Written(items)| && index + n <= packet.Length
    ensures n > 0 ==> packet[..index + n] == old(packet[..index]) + Written(items)
    ensures n == 0 ==> index + |Written(items)| >= packet.Length
  {
    var fits;
    fits, n := AppendEntries(packet, index, items);
    if !fits {
      return 0;
    }
    if n == 0 {
      packet[index] := 0;
      n := 1;
    }
  }

  method AppendEntries(packet: array<Byte>, index: nat, items: seq<Item>) returns (fits: bool, n: nat)
    requires index < packet.Length
    modifies packet
    ensures fits == (index + |Entries(items)| < packet.Length)
    ensures fits ==> n == |Entries(items)| && packet[..index + n] == old(packet[..index]) + Entries(items)
  {
    fits, n := true, 0;
    assert items[..0] == [];
    for k := 0 to |items|
      invariant index + n < packet.Length && n == |Entries(items[..k])|
      invariant packet[..index + n] == old(packet[..index]) + Entries(items[..k])
    {
      EntriesOneMore(items, k);
      EntriesGrow(items, k + 1);
      var m := AppendEntry(packet, index + n, items[k]);
      if m == 0 {
        return false, 0;
      }
      Regroup(old(packet[..index]), Entries(items[..k]), Entry(items[k]));
      n := n + m;
    }
    assert items[..|items|] == items;
  }

  lemma Regroup(a: seq<Byte>, b: seq<Byte>, c: seq<Byte>)
    ensures a + b + c == a + (b + c)
  {
  }

  lemma {:induction false} EntriesGrow(items: seq<Item>, k: nat)
    requires k <= |items|
    ensures |Entries(items[..k])| <= |Entries(items)|
  {
    if k == |items| {
      assert items[..k] == items;
    } else if k > 0 {
      EntriesGrow(items[1..], k - 1);
      assert items[..k][1..] == items[1..][..k - 1];
    }
  }
}
