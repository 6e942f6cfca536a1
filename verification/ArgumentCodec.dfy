/** Handler arguments on the wire. An encoder says what the format is; a parser on values says what
    the in-place cursor of Deserializer.dfy computes; the two are proved inverse to each other. */
module ArgumentCodec {
  import opened Common

  /** A parameter of a packet handler: a value copied as its `size` bytes, or a `std::string`. */
  datatype ArgType = Primitive(size: nat) | Text

  /** A decoded argument; a primitive is given by the bytes copied into it. */
  datatype Value = Bytes(raw: seq<Byte>) | String(chars: seq<Byte>)

  const LENGTH_SIZE := 2
  const MAX_TEXT := 0x1_0000

  predicate HasType(v: Value, t: ArgType) {
    match t
    case Primitive(size) => v.Bytes? && |v.raw| == size
    case Text => v.String? && |v.chars| < MAX_TEXT
  }

  predicate HasTypes(vs: seq<Value>, ts: seq<ArgType>) {
    if ts == [] then vs == [] else vs != [] && HasType(vs[0], ts[0]) && HasTypes(vs[1..], ts[1..])
  }

  /** A `uint16_t` as it lies in memory, low byte first. */
  function EncodeLength(n: nat): (r: seq<Byte>)
    requires n < MAX_TEXT
    ensures |r| == LENGTH_SIZE && DecodeLength(r) == n
  {
    [(n % 256) as Byte, (n / 256) as Byte]
  }

  function DecodeLength(b: seq<Byte>): (n: nat)
    requires |b| == LENGTH_SIZE
    ensures n < MAX_TEXT
  {
    b[0] as int + 256 * b[1] as int
  }

  lemma LengthBack(b: seq<Byte>)
    requires |b| == LENGTH_SIZE
    ensures EncodeLength(DecodeLength(b)) == b
  {
  }

  /** A string is written as the low byte of its length, the high byte, and its characters. */
  lemma TextLayout(chars: seq<Byte>)
    requires |chars| < MAX_TEXT
    ensures var e := EncodeOne(String(chars));
      |e| == 2 + |chars| && e[0] as int == |chars| % 256 && e[1] as int == |chars| / 256 && e[2..] == chars
  {
    assert (EncodeLength(|chars|) + chars)[2..] == chars;
  }

  function EncodeOne(v: Value): seq<Byte>
    requires v.String? ==> |v.chars| < MAX_TEXT
  {
    match v
    case Bytes(raw) => raw
    case String(chars) => EncodeLength(|chars|) + chars
  }

  function Encode(vs: seq<Value>, ts: seq<ArgType>): seq<Byte>
    requires HasTypes(vs, ts)
  {
    if ts == [] then [] else EncodeOne(vs[0]) + Encode(vs[1..], ts[1..])
  }

  /** How one argument lies on the wire. */
  function Laid(v: Value): seq<Byte>
    requires v.String? ==> |v.chars| < MAX_TEXT
  {
    match v
    case Bytes(raw) => raw
    case String(chars) => [(|chars| % 256) as Byte, (|chars| / 256) as Byte] + chars
  }

  lemma {:induction false} FlattenCons(first: seq<Byte>, parts: seq<seq<Byte>>)
    ensures Flatten([first] + parts) == first + Flatten(parts)
    decreases |parts|
  {
    if parts == [] {
      assert [first][..0] == [];
    } else {
      var n := |parts| - 1;
      FlattenCons(first, parts[..n]);
      assert ([first] + parts)[..n + 1] == [first] + parts[..n];
    }
  }

  ghost predicate AllShort(vs: seq<Value>) {
    forall i :: 0 <= i < |vs| ==> (vs[i].String? ==> |vs[i].chars| < MAX_TEXT)
  }

  /** The arguments lie on the wire one after the other, the first one first. */
  lemma {:induction false} EncodesInOrder(vs: seq<Value>, ts: seq<ArgType>)
    requires HasTypes(vs, ts)
    ensures AllShort(vs)
    ensures Encode(vs, ts) == Flatten(seq(|vs|, i requires 0 <= i < |vs| => Laid(vs[i])))
    decreases |ts|
  {
    if ts != [] {
      EncodesInOrder(vs[1..], ts[1..]);
      var laid, later := seq(|vs|, i requires 0 <= i < |vs| => Laid(vs[i])),
        seq(|vs| - 1, i requires 0 <= i < |vs| - 1 => Laid(vs[1..][i]));
      assert laid == [Laid(vs[0])] + later;
      FlattenCons(Laid(vs[0]), later);
    }
  }

  /** What a read returns and the bytes it leaves, which a failed read may have shortened too. */
  datatype Parsed<T> = Parsed(result: Option<T>, left: seq<Byte>)

  function ParsePrimitive(size: nat, input: seq<Byte>): Parsed<seq<Byte>> {
    if |input| < size then Parsed(None, input) else Parsed(Some(input[..size]), input[size..])
  }

  predicate IsSuffix(part: seq<Byte>, whole: seq<Byte>) {
    |part| <= |whole| && part == whole[|whole| - |part|..]
  }

  function ParseOne(t: ArgType, input: seq<Byte>): (p: Parsed<Value>)
    ensures IsSuffix(p.left, input)
  {
    match t
    case Primitive(size) =>
      var p := ParsePrimitive(size, input);
      Parsed(if p.result.Some? then Some(Bytes(p.result.value)) else None, p.left)
    case Text =>
      var p := ParsePrimitive(LENGTH_SIZE, input);
      if p.result.None? then Parsed(None, p.left)
      else
        var q := ParsePrimitive(DecodeLength(p.result.value), p.left);
        Parsed(if q.result.Some? then Some(String(q.result.value)) else None, q.left)
  }

  lemma SuffixOfSuffix(a: seq<Byte>, b: seq<Byte>, c: seq<Byte>)
    requires IsSuffix(c, b) && IsSuffix(b, a)
    ensures IsSuffix(c, a)
  {
  }

  function Parse(ts: seq<ArgType>, input: seq<Byte>): (p: Parsed<seq<Value>>)
    ensures IsSuffix(p.left, input)
  {
    if ts == [] then Parsed(Some([]), input)
    else
      var first := ParseOne(ts[0], input);
      if first.result.None? then Parsed(None, first.left)
      else
        var rest := Parse(ts[1..], first.left);
        SuffixOfSuffix(input, first.left, rest.left);
        Parsed(if rest.result.Some? then Some([first.result.value] + rest.result.value) else None, rest.left)
  }

  /** One argument reads back exactly when the input begins with its encoding. */
  lemma OneExactly(t: ArgType, input: seq<Byte>, v: Value, left: seq<Byte>)
    ensures ParseOne(t, input) == Parsed(Some(v), left) <==> HasType(v, t) && EncodeOne(v) + left == input
  {
    if ParseOne(t, input) == Parsed(Some(v), left) {
      if t.Text? {
        LengthBack(input[..LENGTH_SIZE]);
      }
    }
    if HasType(v, t) && EncodeOne(v) + left == input {
      OneReads(t, v, left);
    }
  }

  lemma OneReads(t: ArgType, v: Value, left: seq<Byte>)
    requires HasType(v, t)
    ensures ParseOne(t, EncodeOne(v) + left) == Parsed(Some(v), left)
  {
    var input := EncodeOne(v) + left;
    if t.Text? {
      assert input[..LENGTH_SIZE] == EncodeLength(|v.chars|);
      assert input[LENGTH_SIZE..] == v.chars + left;
    }
  }

  /** Encoded arguments read back, whatever follows them. */
  lemma {:induction false} RoundTrip(ts: seq<ArgType>, vs: seq<Value>, left: seq<Byte>)
    requires HasTypes(vs, ts)
    ensures Parse(ts, Encode(vs, ts) + left) == Parsed(Some(vs), left)
  {
    if ts == [] {
      assert Encode(vs, ts) + left == left;
    } else {
      var later := Encode(vs[1..], ts[1..]) + left;
      assert Encode(vs, ts) + left == EncodeOne(vs[0]) + later;
      OneReads(ts[0], vs[0], later);
      RoundTrip(ts[1..], vs[1..], left);
      FirstThenRest(ts, EncodeOne(vs[0]) + later, vs, later, left);
    }
  }

  lemma FirstThenRest(ts: seq<ArgType>, input: seq<Byte>, vs: seq<Value>, later: seq<Byte>, left: seq<Byte>)
    requires ts != [] && vs != [] && ParseOne(ts[0], input) == Parsed(Some(vs[0]), later)
    requires Parse(ts[1..], later) == Parsed(Some(vs[1..]), left)
    ensures Parse(ts, input) == Parsed(Some(vs), left)
  {
    assert [vs[0]] + vs[1..] == vs;
  }

  lemma EncodeFirst(ts: seq<ArgType>, vs: seq<Value>, rest: seq<Value>, left: seq<Byte>)
    requires ts != [] && vs != [] && rest == vs[1..] && HasType(vs[0], ts[0]) && HasTypes(rest, ts[1..])
    ensures HasTypes(vs, ts)
    ensures Encode(vs, ts) + left == EncodeOne(vs[0]) + (Encode(rest, ts[1..]) + left)
  {
  }

  /** Whatever is read was encoded there. */
  lemma {:induction false} ReadsWhatWasEncoded(ts: seq<ArgType>, input: seq<Byte>)
    requires Parse(ts, input).result.Some?
    ensures var p := Parse(ts, input); HasTypes(p.result.value, ts) && Encode(p.result.value, ts) + p.left == input
  {
    if ts == [] {
      assert Encode([], ts) + input == input;
    } else {
      var first, p := ParseOne(ts[0], input), Parse(ts, input);
      OneExactly(ts[0], input, first.result.value, first.left);
      ReadsWhatWasEncoded(ts[1..], first.left);
      var rest := Parse(ts[1..], first.left).result.value;
      assert p.result.value[1..] == rest;
      EncodeFirst(ts, p.result.value, rest, p.left);
    }
  }

  /** A parameter list decodes to some values and a remainder if and only if the values have the
      parameters' types and the input is their encoding followed by that remainder. */
  lemma {:induction false} DecodesExactly(ts: seq<ArgType>, input: seq<Byte>, vs: seq<Value>, left: seq<Byte>)
    ensures Parse(ts, input) == Parsed(Some(vs), left) <==> HasTypes(vs, ts) && Encode(vs, ts) + left == input
  {
    if Parse(ts, input) == Parsed(Some(vs), left) {
      ReadsWhatWasEncoded(ts, input);
    }
    if HasTypes(vs, ts) && Encode(vs, ts) + left == input {
      RoundTrip(ts, vs, left);
    }
  }

  /** No two argument lists of the same types share an encoding, whatever follows it. */
  lemma Unambiguous(ts: seq<ArgType>, vs: seq<Value>, left: seq<Byte>, vs': seq<Value>, left': seq<Byte>)
    requires HasTypes(vs, ts) && HasTypes(vs', ts)
    requires Encode(vs, ts) + left == Encode(vs', ts) + left'
    ensures vs == vs' && left == left'
  {
    RoundTrip(ts, vs, left);
    RoundTrip(ts, vs', left');
  }

  /** Some encoded list of these types begins the input. */
  ghost predicate Begins(ts: seq<ArgType>, vs: seq<Value>, left: seq<Byte>, input: seq<Byte>) {
    HasTypes(vs, ts) && Encode(vs, ts) + left == input
  }

  /** What an input begins with is what parsing it gives. */
  lemma BeginsExactly(ts: seq<ArgType>, input: seq<Byte>)
    ensures forall vs, left :: Begins(ts, vs, left, input) <==> Parse(ts, input) == Parsed(Some(vs), left)
  {
    forall vs, left
      ensures Begins(ts, vs, left, input) <==> Parse(ts, input) == Parsed(Some(vs), left)
    {
      DecodesExactly(ts, input, vs, left);
    }
  }

  /** Decoding fails exactly on the inputs that no encoding begins. */
  lemma FailsExactly(ts: seq<ArgType>, input: seq<Byte>)
    ensures Parse(ts, input).result.None? <==> forall vs, left :: !Begins(ts, vs, left, input)
  {
    BeginsExactly(ts, input);
    var p := Parse(ts, input);
    if p.result.Some? {
      assert Begins(ts, p.result.value, p.left, input);
    }
  }

  /** A failure is at one argument: those before it decode, it does not, and nothing after it is read. */
  lemma {:induction false} FailsAtOne(ts: seq<ArgType>, input: seq<Byte>) returns (k: nat)
    requires Parse(ts, input).result.None?
    ensures k < |ts|
    ensures var before := Parse(ts[..k], input);
      && before.result.Some? && ParseOne(ts[k], before.left) == Parsed(None, Parse(ts, input).left)
  {
    var first := ParseOne(ts[0], input);
    if first.result.None? {
      return 0;
    }
    var k' := FailsAtOne(ts[1..], first.left);
    k := k' + 1;
    assert ts[..k][1..] == ts[1..][..k'];
  }
}
