/** The field grammar behind the push streams: a one-byte tag followed by fixed-width
    big-endian integers and texts with a one-byte length. */
module Wire {
  import opened Prelude
  import opened BigEndian

  datatype Kind = Num(width: nat) | Text

  datatype Val = N(n: nat) | T(text: seq<byte>)

  predicate Fits(k: Kind, v: Val) {
    match k
    case Num(w) => v.N? && v.n < Pow256(w)
    case Text => v.T? && |v.text| < 256
  }

  predicate FitsAll(ks: seq<Kind>, vs: seq<Val>) {
    |ks| == |vs| && forall i :: 0 <= i < |ks| ==> Fits(ks[i], vs[i])
  }

  function WriteOne(k: Kind, v: Val): seq<byte>
    requires Fits(k, v)
  {
    match k
    case Num(w) => ToBE(v.n, w)
    case Text => [|v.text|] + v.text
  }

  function Write(ks: seq<Kind>, vs: seq<Val>): seq<byte>
    requires FitsAll(ks, vs)
  {
    if ks == [] then [] else WriteOne(ks[0], vs[0]) + Write(ks[1..], vs[1..])
  }

  function ReadOne(k: Kind, d: seq<byte>): Option<(Val, seq<byte>)> {
    match k
    case Num(w) => if |d| < w then None else Some((N(FromBE(d[..w])), d[w..]))
    case Text =>
      if |d| < 1 then None
      else
        var len: int := d[0];
        if |d| < 1 + len then None else Some((T(d[1..1 + len]), d[1 + len..]))
  }

  function Read(ks: seq<Kind>, d: seq<byte>): Option<(seq<Val>, seq<byte>)> {
    if ks == [] then Some(([], d))
    else
      match ReadOne(ks[0], d)
      case None => None
      case Some((v, rest)) =>
        match Read(ks[1..], rest)
        case None => None
        case Some((vs, rest')) => Some(([v] + vs, rest'))
  }

  /** The fewest bytes that can hold the fields from the i-th on. */
  function MinLength(ks: seq<Kind>, i: nat): nat
    requires i <= |ks|
    decreases |ks| - i
  {
    if i == |ks| then 0 else (if ks[i].Num? then ks[i].width else 1) + MinLength(ks, i + 1)
  }

  lemma ReadOneAfterWrite(k: Kind, v: Val, rest: seq<byte>)
    requires Fits(k, v)
    ensures ReadOne(k, WriteOne(k, v) + rest) == Some((v, rest))
  {
    var d := WriteOne(k, v) + rest;
    match k {
      case Num(w) =>
        FromTo(v.n, w);
        assert d[..w] == WriteOne(k, v) && d[w..] == rest;
      case Text =>
        var len: int := d[0];
        assert d[1..1 + len] == v.text && d[1 + len..] == rest;
    }
  }

  /** Any bytes may follow a written field list: reading stops exactly at its end. */
  lemma {:induction false} ReadAfterWrite(ks: seq<Kind>, vs: seq<Val>, rest: seq<byte>)
    requires FitsAll(ks, vs)
    ensures Read(ks, Write(ks, vs) + rest) == Some((vs, rest))
  {
    if ks == [] {
      assert Write(ks, vs) + rest == rest;
    } else {
      var tail := Write(ks[1..], vs[1..]);
      assert Write(ks, vs) + rest == WriteOne(ks[0], vs[0]) + (tail + rest);
      ReadOneAfterWrite(ks[0], vs[0], tail + rest);
      ReadAfterWrite(ks[1..], vs[1..], rest);
      assert vs == [vs[0]] + vs[1..];
    }
  }

  /** Whatever is read was written there: the bytes begin with the encoding of the values. */
  lemma {:induction false} WriteAfterRead(ks: seq<Kind>, d: seq<byte>)
    requires Read(ks, d).Some?
    ensures var (vs, rest) := Read(ks, d).value;
            FitsAll(ks, vs) && d == Write(ks, vs) + rest
  {
    hide ReadOne, WriteOne, Fits;
    if ks == [] {
      assert d == Write(ks, []) + d;
    } else {
      var (v, rest) := ReadOne(ks[0], d).value;
      WriteOneAfterRead(ks[0], d);
      WriteAfterRead(ks[1..], rest);
      var (vs, rest') := Read(ks[1..], rest).value;
      WriteCons(ks, v, vs);
      assert WriteOne(ks[0], v) + Write(ks[1..], vs) + rest' == WriteOne(ks[0], v) + (Write(ks[1..], vs) + rest');
    }
  }

  lemma WriteOneAfterRead(k: Kind, d: seq<byte>)
    requires ReadOne(k, d).Some?
    ensures var (v, rest) := ReadOne(k, d).value; Fits(k, v) && d == WriteOne(k, v) + rest
  {
    hide FromBE, ToBE, Pow256;
    match k {
      case Num(w) =>
        ToFrom(d[..w]);
        assert d == d[..w] + d[w..];
      case Text =>
    }
  }

  lemma WriteCons(ks: seq<Kind>, v: Val, vs: seq<Val>)
    requires ks != [] && Fits(ks[0], v) && FitsAll(ks[1..], vs)
    ensures FitsAll(ks, [v] + vs) && Write(ks, [v] + vs) == WriteOne(ks[0], v) + Write(ks[1..], vs)
  {
    hide Fits, WriteOne;
    forall i | 0 <= i < |ks| ensures Fits(ks[i], ([v] + vs)[i]) {
      if i > 0 { assert Fits(ks[1..][i - 1], vs[i - 1]); }
    }
    assert ([v] + vs)[1..] == vs;
  }

  /** How a cursor walks the grammar: `done` holds the values of the first `i` fields, and `d`
      the bytes left for the others. */
  function Continue(done: seq<Val>, ks: seq<Kind>, i: nat, d: seq<byte>): Option<seq<Val>>
    requires i <= |ks|
  {
    match Read(ks[i..], d)
    case None => None
    case Some((vs, _)) => Some(done + vs)
  }

  lemma Advance(done: seq<Val>, ks: seq<Kind>, i: nat, d: seq<byte>)
    requires i < |ks|
    ensures Continue(done, ks, i, d) ==
            match ReadOne(ks[i], d)
            case None => None
            case Some((v, rest)) => Continue(done + [v], ks, i + 1, rest)
  {
    assert ks[i..][1..] == ks[i + 1..];
    match ReadOne(ks[i], d) {
      case None =>
      case Some((v, rest)) =>
        match Read(ks[i + 1..], rest) {
          case None =>
          case Some((vs, _)) => assert done + ([v] + vs) == done + [v] + vs;
        }
    }
  }

  /** One integer read at the cursor. */
  lemma AdvanceNum(done: seq<Val>, ks: seq<Kind>, i: nat, data: seq<byte>, offset: nat)
    requires i < |ks| && ks[i].Num? && offset <= |data|
    ensures Continue(done, ks, i, data[offset..]) ==
            if |data| < offset + ks[i].width then None
            else Continue(done + [N(FromBE(data[offset..offset + ks[i].width]))], ks, i + 1,
                          data[offset + ks[i].width..])
  {
    Advance(done, ks, i, data[offset..]);
    var w := ks[i].width;
    if |data| >= offset + w {
      assert data[offset..][..w] == data[offset..offset + w] && data[offset..][w..] == data[offset + w..];
    }
  }

  /** One length-prefixed text read at the cursor. */
  lemma AdvanceText(done: seq<Val>, ks: seq<Kind>, i: nat, data: seq<byte>, offset: nat)
    requires i < |ks| && ks[i].Text? && offset <= |data|
    ensures Continue(done, ks, i, data[offset..]) ==
            if |data| < offset + 1 || |data| < offset + 1 + (data[offset] as int) then None
            else
              var end := offset + 1 + (data[offset] as int);
              Continue(done + [T(data[offset + 1..end])], ks, i + 1, data[end..])
  {
    Advance(done, ks, i, data[offset..]);
    if |data| >= offset + 1 && |data| >= offset + 1 + (data[offset] as int) {
      var len: int := data[offset];
      assert data[offset..][1..1 + len] == data[offset + 1..offset + 1 + len];
      assert data[offset..][1 + len..] == data[offset + 1 + len..];
    }
  }

  /** No field left: the values read are the result. */
  lemma Finish(done: seq<Val>, ks: seq<Kind>, d: seq<byte>)
    ensures Continue(done, ks, |ks|, d) == Some(done)
  {
    assert done + [] == done;
  }

  /** The combined length checks that some decoders make ahead of their reads are necessary. */
  lemma {:induction false} NeedsRoom(done: seq<Val>, ks: seq<Kind>, i: nat, d: seq<byte>)
    requires i <= |ks| && |d| < MinLength(ks, i)
    ensures Continue(done, ks, i, d).None?
    decreases |ks| - i
  {
    Advance(done, ks, i, d);
    match ReadOne(ks[i], d) {
      case None =>
      case Some((v, rest)) => NeedsRoom(done + [v], ks, i + 1, rest);
    }
  }

  /** A message is the tag byte and the fields. */
  function Message(tag: byte, ks: seq<Kind>, vs: seq<Val>): seq<byte>
    requires FitsAll(ks, vs)
  {
    [tag] + Write(ks, vs)
  }

  function Decode(tag: byte, ks: seq<Kind>, data: seq<byte>): Option<seq<Val>> {
    if data == [] || data[0] != tag then None else Continue([], ks, 0, data[1..])
  }

  /** Acceptance is exact: `data` decodes to `vs` iff it begins with the encoding of `vs`. */
  lemma DecodeExact(tag: byte, ks: seq<Kind>, data: seq<byte>, vs: seq<Val>)
    ensures Decode(tag, ks, data) == Some(vs) <==> FitsAll(ks, vs) && Message(tag, ks, vs) <= data
  {
    hide Read, Write, FitsAll;
    if Decode(tag, ks, data) == Some(vs) {
      assert ks[0..] == ks;
      WriteAfterRead(ks, data[1..]);
      var (us, rest) := Read(ks, data[1..]).value;
      assert [] + us == us;
      assert data == [tag] + data[1..];
      assert data == Message(tag, ks, vs) + rest;
    }
    if FitsAll(ks, vs) && Message(tag, ks, vs) <= data {
      var rest := data[|Message(tag, ks, vs)|..];
      assert data[0] == tag && data[1..] == Write(ks, vs) + rest;
      assert ks[0..] == ks;
      ReadAfterWrite(ks, vs, rest);
      assert [] + vs == vs;
    }
  }

  /** Encodings are prefix-free, so no proper prefix of one is accepted. */
  lemma StrictPrefixRejected(tag: byte, ks: seq<Kind>, vs: seq<Val>, cut: nat)
    requires FitsAll(ks, vs) && cut < |Message(tag, ks, vs)|
    ensures Decode(tag, ks, Message(tag, ks, vs)[..cut]).None?
  {
    var whole := Message(tag, ks, vs);
    var got := Decode(tag, ks, whole[..cut]);
    if got.Some? {
      DecodeExact(tag, ks, whole[..cut], got.value);
      assert Message(tag, ks, got.value) <= whole;
      DecodeExact(tag, ks, whole, got.value);
      DecodeExact(tag, ks, whole, vs);
    }
  }
}
