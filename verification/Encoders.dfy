/** Re-encoding every string of a nested reply, and undoing it after the reply was printed. */
module Encoders {
  import opened Entities

  datatype Key = TextKey(text: string) | NumberKey(number: nat)

  // The nested containers and records of a reply
  datatype Data =
    | Text(text: string)
    | Number(number: int)
    | List(items: seq<Data>)
    | Assoc(entries: map<Key, Data>)
    | Record(fields: seq<Data>)

  type Encoding = string -> string

  function EncodedKey(k: Key, f: Encoding): Key {
    if k.TextKey? then TextKey(f(k.text)) else k
  }

  /** What encoding may turn a value into. A map is cleared and rebuilt in no particular order, and
      the first of several entries that get one key stays. */
  ghost predicate IsEncoding(d: Data, f: Encoding, r: Data) {
    match d
    case Text(s) => r == Text(f(s))
    case Number(_) => r == d
    case List(items) =>
      && r.List? && |r.items| == |items|
      && forall i :: 0 <= i < |items| ==> IsEncoding(items[i], f, r.items[i])
    case Record(fields) =>
      && r.Record? && |r.fields| == |fields|
      && forall i :: 0 <= i < |fields| ==> IsEncoding(fields[i], f, r.fields[i])
    case Assoc(entries) =>
      && r.Assoc?
      && (forall k :: k in entries ==> EncodedKey(k, f) in r.entries)
      && (forall k' :: k' in r.entries ==>
            exists k :: k in entries && EncodedKey(k, f) == k' && IsEncoding(entries[k], f, r.entries[k']))
  }

  // ---------- The encoder ----------

  // The entries of a map in some order, each key once
  ghost predicate Lists(order: seq<Key>, entries: map<Key, Data>) {
    && (forall i :: 0 <= i < |order| ==> order[i] in entries)
    && (forall k :: k in entries ==> k in order)
    && (forall i, j :: 0 <= i < j < |order| ==> order[i] != order[j])
  }

  method Entries(entries: map<Key, Data>) returns (order: seq<Key>)
    ensures Lists(order, entries)
  {
    order := [];
    var keys := entries.Keys;
    while keys != {}
      invariant keys <= entries.Keys
      invariant forall k :: k in order <==> k in entries && k !in keys
      invariant forall i, j :: 0 <= i < j < |order| ==> order[i] != order[j]
      decreases keys
    {
      var k :| k in keys;
      order, keys := order + [k], keys - {k};
    }
  }

  /** Encodes a value: items and fields where they stand, a map by taking its entries out,
      encoding each and inserting them again; an insertion never replaces an entry. */
  method Encode(d: Data, f: Encoding) returns (r: Data)
    ensures IsEncoding(d, f, r)
    decreases d, 1
  {
    match d {
      case Text(s) => r := Text(f(s));
      case Number(_) => r := d;
      case List(items) =>
        var out := EncodeAll(d, items, f);
        r := List(out);
      case Record(fields) =>
        var out := EncodeAll(d, fields, f);
        r := Record(out);
      case Assoc(entries) =>
        var order := Entries(entries);
        var temp := seq(|order|, i requires 0 <= i < |order| => (order[i], entries[order[i]]));
        for i := 0 to |temp|
          invariant |temp| == |order|
          invariant forall k :: 0 <= k < i ==>
                      temp[k].0 == EncodedKey(order[k], f) && IsEncoding(entries[order[k]], f, temp[k].1)
          invariant forall k :: i <= k < |temp| ==> temp[k] == (order[k], entries[order[k]])
        {
          var value := Encode(temp[i].1, f);
          temp := temp[i := (EncodedKey(temp[i].0, f), value)];
        }
        var rebuilt := Rebuild(temp);
        r := Assoc(rebuilt);
    }
  }

  method EncodeAll(ghost parent: Data, ds: seq<Data>, f: Encoding) returns (out: seq<Data>)
    requires forall i :: 0 <= i < |ds| ==> ds[i] < parent
    ensures |out| == |ds| && forall i :: 0 <= i < |ds| ==> IsEncoding(ds[i], f, out[i])
    decreases parent, 0
  {
    out := ds;
    for i := 0 to |ds|
      invariant |out| == |ds|
      invariant forall k :: 0 <= k < i ==> IsEncoding(ds[k], f, out[k])
      invariant forall k :: i <= k < |ds| ==> out[k] == ds[k]
    {
      var e := Encode(ds[i], f);
      out := out[i := e];
    }
  }

  method Rebuild(temp: seq<(Key, Data)>) returns (entries: map<Key, Data>)
    ensures forall i :: 0 <= i < |temp| ==> temp[i].0 in entries
    ensures forall k :: k in entries ==> exists i :: 0 <= i < |temp| && temp[i] == (k, entries[k])
  {
    entries := map[];
    for i := 0 to |temp|
      invariant forall k :: 0 <= k < i ==> temp[k].0 in entries
      invariant forall k :: k in entries ==> exists j :: 0 <= j < i && temp[j] == (k, entries[k])
    {
      if temp[i].0 !in entries {
        entries := entries[temp[i].0 := temp[i].1];
      }
    }
  }

  // ---------- Round trip ----------

  // Every string of the value, keys included, comes back
  ghost predicate ComesBack(d: Data, enc: Encoding, dec: Encoding) {
    match d
    case Text(s) => dec(enc(s)) == s
    case Number(_) => true
    case List(items) => forall i :: 0 <= i < |items| ==> ComesBack(items[i], enc, dec)
    case Record(fields) => forall i :: 0 <= i < |fields| ==> ComesBack(fields[i], enc, dec)
    case Assoc(entries) =>
      forall k :: k in entries ==> EncodedKey(EncodedKey(k, enc), dec) == k && ComesBack(entries[k], enc, dec)
  }

  lemma KeysComeBack(d: Data, enc: Encoding, dec: Encoding, e: Data, r: Data)
    requires d.Assoc? && ComesBack(d, enc, dec) && IsEncoding(d, enc, e) && IsEncoding(e, dec, r)
    ensures r.Assoc? && r.entries.Keys == d.entries.Keys
  {
    forall k | k in d.entries ensures k in r.entries {
      assert EncodedKey(k, enc) in e.entries;
    }
    forall k | k in r.entries ensures k in d.entries {
      var k1 :| k1 in e.entries && EncodedKey(k1, dec) == k;
      var k2 :| k2 in d.entries && EncodedKey(k2, enc) == k1;
    }
  }

  /** Decoding what encoding made gives the value back, whatever order maps were rebuilt in,
      if decoding undoes encoding on the strings of the value. */
  lemma {:induction false} DecodeUndoesEncode(d: Data, enc: Encoding, dec: Encoding, e: Data, r: Data)
    requires ComesBack(d, enc, dec) && IsEncoding(d, enc, e) && IsEncoding(e, dec, r)
    ensures r == d
    decreases d, 2
  {
    match d {
      case Text(s) =>
      case Number(_) =>
      case List(items) =>
        forall i | 0 <= i < |items| ensures r.items[i] == items[i] {
          DecodeUndoesEncode(items[i], enc, dec, e.items[i], r.items[i]);
        }
      case Record(fields) =>
        forall i | 0 <= i < |fields| ensures r.fields[i] == fields[i] {
          DecodeUndoesEncode(fields[i], enc, dec, e.fields[i], r.fields[i]);
        }
      case Assoc(entries) =>
        AssocComesBack(d, enc, dec, e, r);
    }
  }

  lemma {:induction false} AssocComesBack(d: Data, enc: Encoding, dec: Encoding, e: Data, r: Data)
    requires d.Assoc? && ComesBack(d, enc, dec) && IsEncoding(d, enc, e) && IsEncoding(e, dec, r)
    ensures r == d
    decreases d, 1
  {
    KeysComeBack(d, enc, dec, e, r);
    forall k | k in d.entries ensures r.entries[k] == d.entries[k] {
      EntryComesBack(d, enc, dec, e, r, k);
    }
    SameEntries(r.entries, d.entries);
  }

  lemma SameEntries(a: map<Key, Data>, b: map<Key, Data>)
    requires a.Keys == b.Keys && forall k :: k in b ==> a[k] == b[k]
    ensures a == b
  {
  }

  lemma {:induction false} EntryComesBack(d: Data, enc: Encoding, dec: Encoding, e: Data, r: Data, k: Key)
    requires d.Assoc? && ComesBack(d, enc, dec) && IsEncoding(d, enc, e) && IsEncoding(e, dec, r)
    requires k in d.entries && k in r.entries
    ensures r.entries[k] == d.entries[k]
    decreases d, 0
  {
    var k1 :| k1 in e.entries && EncodedKey(k1, dec) == k && IsEncoding(e.entries[k1], dec, r.entries[k]);
    var k2 :| k2 in d.entries && EncodedKey(k2, enc) == k1 && IsEncoding(d.entries[k2], enc, e.entries[k1]);
    DecodeUndoesEncode(d.entries[k], enc, dec, e.entries[k1], r.entries[k]);
  }

  ghost predicate EncodesApart(entries: map<Key, Data>, f: Encoding) {
    forall k, l :: k in entries && l in entries && EncodedKey(k, f) == EncodedKey(l, f) ==> k == l
  }

  /** Clearing and rebuilding a map loses an entry exactly when two of its keys encode alike. */
  lemma EntriesKeptExactlyWhenApart(entries: map<Key, Data>, f: Encoding, r: Data)
    requires IsEncoding(Assoc(entries), f, r)
    ensures |r.entries| == |entries| <==> EncodesApart(entries, f)
  {
    var image := set k | k in entries.Keys :: EncodedKey(k, f);
    assert r.entries.Keys == image;
    ImageSize(entries.Keys, f);
    assert EncodesApart(entries, f) <==>
           forall k, l :: k in entries.Keys && l in entries.Keys && EncodedKey(k, f) == EncodedKey(l, f) ==> k == l;
  }

  lemma {:induction false} ImageSize(keys: set<Key>, f: Encoding)
    ensures var image := set k | k in keys :: EncodedKey(k, f);
            && |image| <= |keys|
            && (|image| == |keys| <==>
                forall k, l :: k in keys && l in keys && EncodedKey(k, f) == EncodedKey(l, f) ==> k == l)
  {
    var image := set k | k in keys :: EncodedKey(k, f);
    if keys != {} {
      var x :| x in keys;
      var rest := keys - {x};
      ImageSize(rest, f);
      var smaller := set k | k in rest :: EncodedKey(k, f);
      assert keys == rest + {x};
      assert image == smaller + {EncodedKey(x, f)};
      if EncodedKey(x, f) in smaller {
        var y :| y in rest && EncodedKey(y, f) == EncodedKey(x, f);
        assert image == smaller;
        assert x in keys && y in keys && x != y;
      } else {
        forall k, l | k in keys && l in keys && EncodedKey(k, f) == EncodedKey(l, f) && |image| == |keys|
          ensures k == l
        {
          assert k in rest ==> EncodedKey(k, f) in smaller;
          assert l in rest ==> EncodedKey(l, f) in smaller;
        }
      }
    }
  }

  // ---------- What becomes of every place and every string ----------

  datatype Place = Item(index: nat) | Entry(key: Key)

  // The value at a place inside another
  function At(d: Data, path: seq<Place>): Option<Data> {
    if path == [] then Some(d)
    else
      match d
      case List(items) =>
        if path[0].Item? && path[0].index < |items| then At(items[path[0].index], path[1..]) else None
      case Record(fields) =>
        if path[0].Item? && path[0].index < |fields| then At(fields[path[0].index], path[1..]) else None
      case Assoc(entries) =>
        if path[0].Entry? && path[0].key in entries then At(entries[path[0].key], path[1..]) else None
      case _ => None
  }

  // Places stay where they are, under encoded keys
  function Moved(path: seq<Place>, f: Encoding): seq<Place> {
    seq(|path|, i requires 0 <= i < |path| => if path[i].Entry? then Entry(EncodedKey(path[i].key, f)) else path[i])
  }

  // A text is the function's value at the old one, a number stays, and so do lengths and kinds
  ghost predicate IsImage(d: Data, f: Encoding, r: Data) {
    match d
    case Text(s) => r == Text(f(s))
    case Number(n) => r == Number(n)
    case List(items) => r.List? && |r.items| == |items|
    case Record(fields) => r.Record? && |r.fields| == |fields|
    case Assoc(entries) =>
      r.Assoc? && |r.entries| == |entries| && forall k :: k in entries ==> EncodedKey(k, f) in r.entries
  }

  ghost predicate EncodedEverywhere(d: Data, f: Encoding, r: Data) {
    forall path :: At(d, path).Some? ==>
      At(r, Moved(path, f)).Some? && IsImage(At(d, path).value, f, At(r, Moved(path, f)).value)
  }

  // No two keys of any map inside encode alike
  ghost predicate ApartEverywhere(d: Data, f: Encoding) {
    match d
    case List(items) => forall i :: 0 <= i < |items| ==> ApartEverywhere(items[i], f)
    case Record(fields) => forall i :: 0 <= i < |fields| ==> ApartEverywhere(fields[i], f)
    case Assoc(entries) => EncodesApart(entries, f) && forall k :: k in entries ==> ApartEverywhere(entries[k], f)
    case _ => true
  }

  // An entry is found under its encoded key
  lemma EntryKept(entries: map<Key, Data>, f: Encoding, r: Data, k: Key)
    requires IsEncoding(Assoc(entries), f, r) && EncodesApart(entries, f) && k in entries
    ensures EncodedKey(k, f) in r.entries && IsEncoding(entries[k], f, r.entries[EncodedKey(k, f)])
  {
    var k' := EncodedKey(k, f);
    var l :| l in entries && EncodedKey(l, f) == k' && IsEncoding(entries[l], f, r.entries[k']);
    assert l == k;
  }

  lemma {:induction false} EncodedAt(d: Data, f: Encoding, r: Data, path: seq<Place>)
    requires IsEncoding(d, f, r) && ApartEverywhere(d, f) && At(d, path).Some?
    ensures At(r, Moved(path, f)).Some? && IsImage(At(d, path).value, f, At(r, Moved(path, f)).value)
    decreases path
  {
    if path == [] {
      if d.Assoc? {
        EntriesKeptExactlyWhenApart(d.entries, f, r);
      }
    } else {
      var first, rest := path[0], path[1..];
      assert Moved(path, f)[1..] == Moved(rest, f);
      match d {
        case List(items) => EncodedAt(items[first.index], f, r.items[first.index], rest);
        case Record(fields) => EncodedAt(fields[first.index], f, r.fields[first.index], rest);
        case Assoc(entries) =>
          EntryKept(entries, f, r, first.key);
          EncodedAt(entries[first.key], f, r.entries[EncodedKey(first.key, f)], rest);
      }
    }
  }

  /** Encoding reaches every place at any depth: what stands there is encoded if it is a text, and is as
      before, of the same kind and length, if not. */
  lemma EncodesEveryPlace(d: Data, f: Encoding, r: Data)
    requires IsEncoding(d, f, r) && ApartEverywhere(d, f)
    ensures EncodedEverywhere(d, f, r)
  {
    forall path | At(d, path).Some?
      ensures At(r, Moved(path, f)).Some? && IsImage(At(d, path).value, f, At(r, Moved(path, f)).value)
    {
      EncodedAt(d, f, r, path);
    }
  }

  // A string of the value, or one of its keys
  ghost predicate Holds(d: Data, s: string) {
    match d
    case Text(t) => t == s
    case Number(_) => false
    case List(items) => exists i :: 0 <= i < |items| && Holds(items[i], s)
    case Record(fields) => exists i :: 0 <= i < |fields| && Holds(fields[i], s)
    case Assoc(entries) => exists k :: k in entries && (k == TextKey(s) || Holds(entries[k], s))
  }

  lemma {:induction false} TextsAreImages(d: Data, f: Encoding, r: Data, s': string)
    requires IsEncoding(d, f, r) && Holds(r, s')
    ensures exists s :: Holds(d, s) && f(s) == s'
  {
    match d {
      case Text(t) => assert Holds(d, t);
      case List(items) =>
        var i :| 0 <= i < |items| && Holds(r.items[i], s');
        TextsAreImages(items[i], f, r.items[i], s');
        var s :| Holds(items[i], s) && f(s) == s';
        assert Holds(d, s);
      case Record(fields) =>
        var i :| 0 <= i < |fields| && Holds(r.fields[i], s');
        TextsAreImages(fields[i], f, r.fields[i], s');
        var s :| Holds(fields[i], s) && f(s) == s';
        assert Holds(d, s);
      case Assoc(entries) =>
        var k' :| k' in r.entries && (k' == TextKey(s') || Holds(r.entries[k'], s'));
        var k :| k in entries && EncodedKey(k, f) == k' && IsEncoding(entries[k], f, r.entries[k']);
        if k' == TextKey(s') {
          assert Holds(d, k.text) && f(k.text) == s';
        } else {
          TextsAreImages(entries[k], f, r.entries[k'], s');
          var s :| Holds(entries[k], s) && f(s) == s';
          assert Holds(d, s);
        }
    }
  }

  lemma {:induction false} TextsAreKept(d: Data, f: Encoding, r: Data, s: string)
    requires IsEncoding(d, f, r) && ApartEverywhere(d, f) && Holds(d, s)
    ensures Holds(r, f(s))
  {
    match d {
      case Text(t) =>
      case List(items) =>
        var i :| 0 <= i < |items| && Holds(items[i], s);
        TextsAreKept(items[i], f, r.items[i], s);
      case Record(fields) =>
        var i :| 0 <= i < |fields| && Holds(fields[i], s);
        TextsAreKept(fields[i], f, r.fields[i], s);
      case Assoc(entries) =>
        var k :| k in entries && (k == TextKey(s) || Holds(entries[k], s));
        EntryKept(entries, f, r, k);
        if k != TextKey(s) {
          TextsAreKept(entries[k], f, r.entries[EncodedKey(k, f)], s);
        }
    }
  }

  /** The strings of the result, keys included, are exactly the values of the function at the strings of
      the original; without the condition on keys there are still no others. */
  lemma TextsOfEncoding(d: Data, f: Encoding, r: Data, s': string)
    requires IsEncoding(d, f, r)
    ensures Holds(r, s') ==> exists s :: Holds(d, s) && f(s) == s'
    ensures ApartEverywhere(d, f) ==> (Holds(r, s') <==> exists s :: Holds(d, s) && f(s) == s')
  {
    if Holds(r, s') {
      TextsAreImages(d, f, r, s');
    }
    if ApartEverywhere(d, f) && exists s :: Holds(d, s) && f(s) == s' {
      var s :| Holds(d, s) && f(s) == s';
      TextsAreKept(d, f, r, s);
    }
  }

  // ---------- Replies ----------

  class ExInfo {
    var data: Data

    constructor (data: Data)
      ensures this.data == data
    {
      this.data := data;
    }

    method ToEncoding(f: Encoding)
      modifies this
      ensures IsEncoding(old(data), f, data)
      ensures ApartEverywhere(old(data), f) ==> EncodedEverywhere(old(data), f, data)
    {
      data := Encode(data, f);
      if ApartEverywhere(old(data), f) {
        EncodesEveryPlace(old(data), f, data);
      }
    }

    /** Encodes the data in place, prints it, and decodes it in place: the text is the printed
        encoding, and if decoding undoes encoding on its strings the data is as before. */
    method ToString(enc: Encoding, dec: Encoding, dump: Data -> string) returns (result: string)
      modifies this
      ensures exists e :: IsEncoding(old(data), enc, e) && IsEncoding(e, dec, data) && result == dec(dump(e))
      ensures ComesBack(old(data), enc, dec) ==> data == old(data)
    {
      ToEncoding(enc);
      ghost var e := data;
      result := dec(dump(data));
      ToEncoding(dec);
      if ComesBack(old(data), enc, dec) {
        DecodeUndoesEncode(old(data), enc, dec, e, data);
      }
    }
  }
}
