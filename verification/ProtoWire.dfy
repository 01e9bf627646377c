/** Messages on the wire as the Protocol Buffers encoding guide describes them: keys, varints and
    length-delimited values; and messages given as lists of typed fields, numbered from 1. */
module ProtoWire {
  import opened Types
  import Varint

  // ---------------------------------------------------------------- items

  /** One occurrence of a field: wire type 0 or wire type 2. */
  datatype Item = Int(tag: nat, value: nat) | Data(tag: nat, bytes: seq<byte>)

  function EncodeItem(item: Item): seq<byte> {
    match item
    case Int(tag, value) => Varint.Encode(8 * tag) + Varint.Encode(value)
    case Data(tag, bytes) => Varint.Encode(8 * tag + 2) + Varint.Encode(|bytes|) + bytes
  }

  function Encode(items: seq<Item>): seq<byte> {
    if items == [] then [] else EncodeItem(items[0]) + Encode(items[1..])
  }

  /** The item at the front of a stream and the bytes behind it. */
  function DecodeItem(s: seq<byte>): (r: Option<(Item, seq<byte>)>)
    ensures r.Some? ==> |r.value.1| < |s|
  {
    match Varint.Decode(s)
    case None => None
    case Some((key, behind)) =>
      match Varint.Decode(behind)
      case None => None
      case Some((n, rest)) =>
        if key % 8 == 0 then Some((Int(key / 8, n), rest))
        else if key % 8 == 2 && n <= |rest| then Some((Data(key / 8, rest[..n]), rest[n..]))
        else None
  }

  function Decode(s: seq<byte>): Option<seq<Item>>
    decreases |s|
  {
    if s == [] then Some([])
    else
      match DecodeItem(s)
      case None => None
      case Some((item, rest)) =>
        match Decode(rest)
        case None => None
        case Some(items) => Some([item] + items)
  }

  lemma DecodeEncodeItem(item: Item, rest: seq<byte>)
    ensures DecodeItem(EncodeItem(item) + rest) == Some((item, rest))
  {
    hide Varint.Encode, Varint.Decode;
    match item
    case Int(tag, value) =>
      var body := Varint.Encode(value) + rest;
      assert EncodeItem(item) + rest == Varint.Encode(8 * tag) + body;
      Varint.DecodeEncode(8 * tag, body);
      Varint.DecodeEncode(value, rest);
    case Data(tag, bytes) =>
      var body := Varint.Encode(|bytes|) + (bytes + rest);
      assert EncodeItem(item) + rest == Varint.Encode(8 * tag + 2) + body;
      Varint.DecodeEncode(8 * tag + 2, body);
      Varint.DecodeEncode(|bytes|, bytes + rest);
      assert (bytes + rest)[..|bytes|] == bytes && (bytes + rest)[|bytes|..] == rest;
  }

  /** Reading back what was written gives the same items in the same order. */
  lemma {:induction false} DecodeEncode(items: seq<Item>)
    ensures Decode(Encode(items)) == Some(items)
  {
    hide EncodeItem, DecodeItem;
    if items != [] {
      var rest := Encode(items[1..]);
      DecodeEncodeItem(items[0], rest);
      DecodeEncode(items[1..]);
      assert [items[0]] + items[1..] == items;
    }
  }

  lemma {:induction false} EncodeAppend(a: seq<Item>, b: seq<Item>)
    ensures Encode(a + b) == Encode(a) + Encode(b)
  {
    hide EncodeItem;
    if a == [] {
      assert a + b == b;
    } else {
      assert (a + b)[1..] == a[1..] + b;
      EncodeAppend(a[1..], b);
    }
  }

  // ---------------------------------------------------------------- typed fields

  /** strnlen of a character array. */
  function Length(s: seq<byte>): (n: nat)
    ensures n <= |s|
    ensures (exists i | 0 <= i < |s| :: s[i] == 0) ==> n < |s|
    ensures forall i | 0 <= i < n :: s[i] != 0
  {
    if s == [] || s[0] == 0 then 0
    else
      assert forall i | 0 < i < |s| :: s[i] == s[1..][i - 1];
      1 + Length(s[1..])
  }

  function ZigZag(n: i32): (u: u32)
    ensures u % 2 == 0 <==> n >= 0
  {
    if n >= 0 then 2 * n else -2 * n - 1
  }

  /** A field of a message as its descriptor declares it. Byte arrays are given by size, since nothing
      looks at their contents. */
  datatype Field =
    | Number(n: nat)                              // singular integer
    | Flag(b: bool)                               // singular boolean
    | Signed(i: i32)                              // singular, zigzag
    | Enum(n: nat, last: nat)                     // singular, with its largest enumerator
    | Optional(o: Option<nat>)
    | OptionalEnum(o: Option<nat>, last: nat)
    | Bytes(size: nat, capacity: nat)             // singular array of bytes
    | Fixed(size: nat)                            // array of fixed size, always present
    | Text(chars: seq<byte>)                      // singular string in a character array
    | Packed(count: nat, capacity: nat, values: seq<nat>)
    | Message(present: bool, fields: Fields)
    | Repeated(count: nat, capacity: nat, elements: Fields)

  /** The fields of a message, numbered from 1, or the elements of a repeated field. */
  datatype Fields = Nil | Cons(head: Field, tail: Fields)

  function Filler(size: nat): seq<byte> {
    seq(size, _ => 0 as byte)
  }

  function Varints(values: seq<nat>): seq<byte> {
    if values == [] then [] else Varint.Encode(values[0]) + Varints(values[1..])
  }

  /** What a length-delimited value holds. */
  function Contents(f: Field): seq<byte>
    decreases f, 0
  {
    match f
    case Text(chars) => chars[..Length(chars)]
    case Message(_, fields) => Encode(Items(fields, 1))
    case Bytes(size, _) => Filler(size)
    case Fixed(size) => Filler(size)
    case Packed(_, _, values) => Varints(values)
    case _ => []
  }

  function Elements(fs: Fields, tag: nat): seq<Item>
    decreases fs, 0
  {
    match fs
    case Nil => []
    case Cons(f, rest) => [Data(tag, Contents(f))] + Elements(rest, tag)
  }

  /** The items of one field: a singular one that holds its default is left out. */
  function ItemsOf(f: Field, tag: nat): seq<Item>
    decreases f, 1
  {
    match f
    case Number(n) => if n == 0 then [] else [Int(tag, n)]
    case Flag(b) => if b then [Int(tag, 1)] else []
    case Signed(i) => if i == 0 then [] else [Int(tag, ZigZag(i))]
    case Enum(n, _) => if n == 0 then [] else [Int(tag, n)]
    case Optional(o) => if o.None? then [] else [Int(tag, o.value)]
    case OptionalEnum(o, _) => if o.None? then [] else [Int(tag, o.value)]
    case Fixed(_) => [Data(tag, Contents(f))]
    case Message(present, _) => if present then [Data(tag, Contents(f))] else []
    case Repeated(_, _, elements) => Elements(elements, tag)
    case _ => if Contents(f) == [] then [] else [Data(tag, Contents(f))]
  }

  /** The items of a message whose fields are numbered from `tag` on. */
  function Items(fs: Fields, tag: nat): seq<Item>
    decreases fs, 1
  {
    match fs
    case Nil => []
    case Cons(f, rest) => ItemsOf(f, tag) + Items(rest, tag + 1)
  }

  // ---------------------------------------------------------------- what the wire tells

  ghost predicate Tagged(items: seq<Item>, tag: nat) {
    forall i | 0 <= i < |items| :: items[i].tag == tag
  }

  ghost predicate TaggedFrom(items: seq<Item>, tag: nat) {
    forall i | 0 <= i < |items| :: items[i].tag >= tag
  }

  lemma {:induction false} ElementsTagged(fs: Fields, tag: nat)
    ensures Tagged(Elements(fs, tag), tag)
  {
    hide Contents;
    if fs.Cons? {
      ElementsTagged(fs.tail, tag);
    }
  }

  lemma FieldTagged(f: Field, tag: nat)
    ensures Tagged(ItemsOf(f, tag), tag)
  {
    hide Contents, Elements;
    if f.Repeated? {
      ElementsTagged(f.elements, tag);
    }
  }

  lemma {:induction false} ItemsTagged(fs: Fields, tag: nat)
    ensures TaggedFrom(Items(fs, tag), tag)
  {
    hide ItemsOf;
    if fs.Cons? {
      FieldTagged(fs.head, tag);
      ItemsTagged(fs.tail, tag + 1);
    }
  }

  /** Items of one field end where a higher tag begins. */
  lemma SplitAtTag(a: seq<Item>, x: seq<Item>, b: seq<Item>, y: seq<Item>, tag: nat)
    requires a + x == b + y
    requires Tagged(a, tag) && Tagged(b, tag) && TaggedFrom(x, tag + 1) && TaggedFrom(y, tag + 1)
    ensures a == b && x == y
  {
    var s := a + x;
    assert forall i | 0 <= i < |s| :: s[i].tag == tag <==> i < |a|;
    assert s == b + y;
    assert forall i | 0 <= i < |s| :: s[i].tag == tag <==> i < |b|;
    var k := Min(|a|, |b|);
    assert k < |s| ==> (s[k].tag == tag <==> k < |a|);
    assert |a| == |b|;
    assert (a + x)[..|a|] == a && (b + y)[..|b|] == b;
    assert (a + x)[|a|..] == x && (b + y)[|b|..] == y;
  }

  function Count(fs: Fields): nat {
    match fs
    case Nil => 0
    case Cons(_, rest) => 1 + Count(rest)
  }

  /** The fields give the same items, one by one; a field that is not there gives none. */
  ghost predicate Agree(fs: Fields, gs: Fields, tag: nat)
    decreases fs, gs
  {
    match (fs, gs)
    case (Nil, Nil) => true
    case (Cons(f, fs'), Nil) => ItemsOf(f, tag) == [] && Agree(fs', Nil, tag + 1)
    case (Nil, Cons(g, gs')) => ItemsOf(g, tag) == [] && Agree(Nil, gs', tag + 1)
    case (Cons(f, fs'), Cons(g, gs')) => ItemsOf(f, tag) == ItemsOf(g, tag) && Agree(fs', gs', tag + 1)
  }

  function Front(fs: Fields, tag: nat): seq<Item> {
    if fs.Cons? then ItemsOf(fs.head, tag) else []
  }

  function Rest(fs: Fields): Fields {
    if fs.Cons? then fs.tail else Nil
  }

  lemma FrontAndRest(fs: Fields, tag: nat)
    ensures Items(fs, tag) == Front(fs, tag) + Items(Rest(fs), tag + 1)
    ensures Tagged(Front(fs, tag), tag) && TaggedFrom(Items(Rest(fs), tag + 1), tag + 1)
  {
    hide ItemsOf;
    if fs.Cons? {
      FieldTagged(fs.head, tag);
    }
    ItemsTagged(Rest(fs), tag + 1);
  }

  /** No field is lost: equal messages agree field by field. */
  lemma {:induction false} ItemsAgree(fs: Fields, gs: Fields, tag: nat)
    requires Items(fs, tag) == Items(gs, tag)
    ensures Agree(fs, gs, tag)
    decreases fs, gs
  {
    if fs.Cons? || gs.Cons? {
      FrontAndRest(fs, tag);
      FrontAndRest(gs, tag);
      hide ItemsOf, Items;
      SplitAtTag(Front(fs, tag), Items(Rest(fs), tag + 1), Front(gs, tag), Items(Rest(gs), tag + 1), tag);
      ItemsAgree(Rest(fs), Rest(gs), tag + 1);
    }
  }

  /** The items of a scalar field tell its value, those of a byte array its size. */
  lemma ToldRules()
    ensures forall f: Field, g: Field, fs: Fields, gs: Fields, tag: nat ::
              Agree(Cons(f, fs), Cons(g, gs), tag) <==> ItemsOf(f, tag) == ItemsOf(g, tag) && Agree(fs, gs, tag + 1)
    ensures forall a: bool, b: bool, tag: nat :: ItemsOf(Flag(a), tag) == ItemsOf(Flag(b), tag) ==> a == b
    ensures forall a: nat, b: nat, tag: nat :: ItemsOf(Number(a), tag) == ItemsOf(Number(b), tag) ==> a == b
    ensures forall a: i32, b: i32, tag: nat :: ItemsOf(Signed(a), tag) == ItemsOf(Signed(b), tag) ==> a == b
    ensures forall a: nat, b: nat, last: nat, tag: nat ::
              ItemsOf(Enum(a, last), tag) == ItemsOf(Enum(b, last), tag) ==> a == b
    ensures forall a: Option<nat>, b: Option<nat>, tag: nat ::
              ItemsOf(Optional(a), tag) == ItemsOf(Optional(b), tag) ==> a == b
    ensures forall a: Option<nat>, b: Option<nat>, last: nat, tag: nat ::
              ItemsOf(OptionalEnum(a, last), tag) == ItemsOf(OptionalEnum(b, last), tag) ==> a == b
    ensures forall a: nat, b: nat, capacity: nat, tag: nat ::
              ItemsOf(Bytes(a, capacity), tag) == ItemsOf(Bytes(b, capacity), tag) ==> a == b
  {
    forall a: nat, b: nat, tag: nat | ItemsOf(Number(a), tag) == ItemsOf(Number(b), tag)
      ensures a == b
    {
      assert a != 0 && b != 0 ==> ItemsOf(Number(a), tag)[0] == ItemsOf(Number(b), tag)[0];
    }
    forall a: i32, b: i32, tag: nat | ItemsOf(Signed(a), tag) == ItemsOf(Signed(b), tag)
      ensures a == b
    {
      assert a != 0 && b != 0 ==> ItemsOf(Signed(a), tag)[0] == ItemsOf(Signed(b), tag)[0];
    }
    forall a: nat, b: nat, last: nat, tag: nat | ItemsOf(Enum(a, last), tag) == ItemsOf(Enum(b, last), tag)
      ensures a == b
    {
      assert a != 0 && b != 0 ==> ItemsOf(Enum(a, last), tag)[0] == ItemsOf(Enum(b, last), tag)[0];
    }
    forall a: Option<nat>, b: Option<nat>, tag: nat | ItemsOf(Optional(a), tag) == ItemsOf(Optional(b), tag)
      ensures a == b
    {
      assert a.Some? && b.Some? ==> ItemsOf(Optional(a), tag)[0] == ItemsOf(Optional(b), tag)[0];
    }
    forall a: Option<nat>, b: Option<nat>, last: nat, tag: nat |
      ItemsOf(OptionalEnum(a, last), tag) == ItemsOf(OptionalEnum(b, last), tag)
      ensures a == b
    {
      assert a.Some? && b.Some? ==> ItemsOf(OptionalEnum(a, last), tag)[0] == ItemsOf(OptionalEnum(b, last), tag)[0];
    }
    forall a: nat, b: nat, capacity: nat, tag: nat |
      ItemsOf(Bytes(a, capacity), tag) == ItemsOf(Bytes(b, capacity), tag)
      ensures a == b
    {
      assert |Contents(Bytes(a, capacity))| == a && |Contents(Bytes(b, capacity))| == b;
      assert a != 0 && b != 0 ==> ItemsOf(Bytes(a, capacity), tag)[0] == ItemsOf(Bytes(b, capacity), tag)[0];
    }
  }

  /** Those of a string tell its characters up to the terminator. */
  lemma TextTold(a: seq<byte>, b: seq<byte>, tag: nat)
    requires ItemsOf(Text(a), tag) == ItemsOf(Text(b), tag)
    ensures a[..Length(a)] == b[..Length(b)]
  {
    if Contents(Text(a)) != [] && Contents(Text(b)) != [] {
      assert ItemsOf(Text(a), tag)[0] == ItemsOf(Text(b), tag)[0];
    }
  }

  lemma {:induction false} VarintsTold(a: seq<nat>, b: seq<nat>)
    requires Varints(a) == Varints(b)
    ensures a == b
  {
    hide Varint.Encode;
    if a != [] && b != [] {
      Varint.DecodeEncode(a[0], Varints(a[1..]));
      Varint.DecodeEncode(b[0], Varints(b[1..]));
      VarintsTold(a[1..], b[1..]);
      assert a == [a[0]] + a[1..] && b == [b[0]] + b[1..];
    }
  }

  lemma PackedTold(n: nat, a: seq<nat>, m: nat, b: seq<nat>, capacity: nat, tag: nat)
    requires ItemsOf(Packed(n, capacity, a), tag) == ItemsOf(Packed(m, capacity, b), tag)
    ensures a == b
  {
    if Varints(a) != [] && Varints(b) != [] {
      assert ItemsOf(Packed(n, capacity, a), tag)[0] == ItemsOf(Packed(m, capacity, b), tag)[0];
    }
    VarintsTold(a, b);
  }

  /** Messages of equal bytes agree field by field. */
  lemma BodyTold(fs: Fields, gs: Fields)
    requires Encode(Items(fs, 1)) == Encode(Items(gs, 1))
    ensures Agree(fs, gs, 1)
  {
    DecodeEncode(Items(fs, 1));
    DecodeEncode(Items(gs, 1));
    ItemsAgree(fs, gs, 1);
  }

  /** Those of a nested message tell whether it is there, and its fields. */
  lemma MessageTold(p: bool, fs: Fields, q: bool, gs: Fields, tag: nat)
    requires ItemsOf(Message(p, fs), tag) == ItemsOf(Message(q, gs), tag)
    ensures p == q && (p ==> Agree(fs, gs, 1))
  {
    if p && q {
      assert ItemsOf(Message(p, fs), tag)[0] == ItemsOf(Message(q, gs), tag)[0];
      BodyTold(fs, gs);
    }
  }
}
