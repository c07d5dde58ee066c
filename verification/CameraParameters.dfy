/**
  The parameter map of camera/parameters/CameraParameters.cpp and its text form. mMap is a vector
  sorted by key; a C string is a sequence of characters none of which is NUL.
  */
module CameraParameters {
  import opened Basics
  import opened CameraSizes

  datatype Entry = Entry(key: string, value: string)

  // ---------------------------------------------------------------- the sorted vector

  /** strcmp(a, b) < 0. */
  predicate Before(a: string, b: string) {
    b != [] && (a == [] || a[0] < b[0] || (a[0] == b[0] && Before(a[1..], b[1..])))
  }

  lemma {:induction false} BeforeIsTotal(a: string, b: string)
    ensures a == b || Before(a, b) || Before(b, a)
    ensures !(Before(a, b) && Before(b, a)) && !Before(a, a)
  {
    if a != [] && b != [] {
      BeforeIsTotal(a[1..], b[1..]);
      assert a == [a[0]] + a[1..] && b == [b[0]] + b[1..];
    }
    if a != [] {
      BeforeIsTotal(a[1..], a[1..]);
    }
  }

  lemma {:induction false} BeforeIsTransitive(a: string, b: string, c: string)
    requires Before(a, b) && Before(b, c)
    ensures Before(a, c)
  {
    if a != [] && a[0] == b[0] && b[0] == c[0] {
      BeforeIsTransitive(a[1..], b[1..], c[1..]);
    }
  }

  /** Before is the order of strcmp: at the first place where the two differ `a` has the smaller character
      or ends. */
  lemma {:induction false} BeforeIff(a: string, b: string)
    ensures Before(a, b) <==> exists n :: 0 <= n <= |a| && n < |b| && a[..n] == b[..n] && (n == |a| || a[n] < b[n])
  {
    if a == [] || b == [] || a[0] < b[0] {
      assert a[..0] == b[..0];
    } else if a[0] == b[0] {
      BeforeIff(a[1..], b[1..]);
      if Before(a, b) {
        var a1, b1 := a[1..], b[1..];
        var n :| 0 <= n <= |a1| && n < |b1| && a1[..n] == b1[..n] && (n == |a1| || a1[n] < b1[n]);
        assert a[..n + 1] == [a[0]] + a1[..n] && b[..n + 1] == [b[0]] + b1[..n];
      } else {
        forall n | 0 < n <= |a| && n < |b| && a[..n] == b[..n] ensures !(n == |a| || a[n] < b[n]) {
          assert a[1..][..n - 1] == a[..n][1..] && b[1..][..n - 1] == b[..n][1..];
        }
      }
    } else {
      forall n | 0 < n <= |a| && n < |b| ensures a[..n] != b[..n] {
        assert a[..n][0] != b[..n][0];
      }
    }
  }

  /** Keys strictly ascending. */
  predicate Sorted(m: seq<Entry>) {
    forall i, j :: 0 <= i < j < |m| ==> Before(m[i].key, m[j].key)
  }

  /** KeyedVector::add and replaceValueFor: in place of the key's entry, or where the key belongs. */
  function Put(m: seq<Entry>, key: string, value: string): (r: seq<Entry>)
    ensures forall e :: e in r ==> e in m || e == Entry(key, value)
  {
    if m == [] then [Entry(key, value)]
    else if key == m[0].key then [Entry(key, value)] + m[1..]
    else if Before(key, m[0].key) then [Entry(key, value)] + m
    else
      var r := [m[0]] + Put(m[1..], key, value);
      assert forall e :: e in r ==> e == m[0] || e in Put(m[1..], key, value);
      r
  }

  /** valueFor: empty if there is no such key. */
  function ValueFor(m: seq<Entry>, key: string): string {
    if m == [] then "" else if m[0].key == key then m[0].value else ValueFor(m[1..], key)
  }

  function WithoutKey(m: seq<Entry>, key: string): (r: seq<Entry>)
    ensures forall e :: e in r <==> e in m && e.key != key
    ensures Sorted(m) ==> Sorted(r)
  {
    if m == [] then []
    else if m[0].key == key then WithoutKey(m[1..], key)
    else
      var rest := WithoutKey(m[1..], key);
      assert forall e :: e in m <==> e == m[0] || e in m[1..];
      assert Sorted(m) ==> Sorted([m[0]] + rest) by {
        if Sorted(m) { ConsSorted(m[0], rest, m); }
      }
      [m[0]] + rest
  }

  lemma ConsSorted(e: Entry, rest: seq<Entry>, m: seq<Entry>)
    requires Sorted(m) && Sorted(rest) && m != [] && e == m[0] && forall x :: x in rest ==> x in m[1..]
    ensures Sorted([e] + rest)
  {
    forall j | 0 <= j < |rest| ensures Before(e.key, rest[j].key) {
      assert rest[j] in m[1..];
    }
  }

  lemma {:induction false} PutKeepsSorted(m: seq<Entry>, key: string, value: string)
    requires Sorted(m)
    ensures Sorted(Put(m, key, value))
  {
    if m != [] {
      BeforeIsTotal(key, m[0].key);
      PutKeepsSorted(m[1..], key, value);
      if Before(key, m[0].key) {
        forall j | 0 <= j < |m| ensures Before(key, m[j].key) {
          if j > 0 { BeforeIsTransitive(key, m[0].key, m[j].key); }
        }
      } else if key != m[0].key {
        var rest := Put(m[1..], key, value);
        forall j | 0 <= j < |rest| ensures Before(m[0].key, rest[j].key) {
          assert rest[j] in rest;
        }
      }
    }
  }

  /** So the vector is a map. */
  lemma {:induction false} PutThenValueFor(m: seq<Entry>, key: string, value: string, asked: string)
    ensures ValueFor(Put(m, key, value), asked) == if asked == key then value else ValueFor(m, asked)
  {
    if m != [] && key != m[0].key && !Before(key, m[0].key) {
      PutThenValueFor(m[1..], key, value, asked);
    }
  }

  /** Exactly the key's entry is new, with a value or without; it takes the place of the one there was. */
  lemma {:induction false} PutMembers(m: seq<Entry>, key: string, value: string)
    requires Sorted(m)
    ensures forall e :: e in Put(m, key, value) <==> e == Entry(key, value) || (e in m && e.key != key)
  {
    if m != [] {
      var first, rest := m[0], m[1..];
      assert forall e :: e in m <==> e == first || e in rest;
      BeforeIsTotal(key, first.key);
      if key == first.key || Before(key, first.key) {
        KeysDiffer(m, key);
      } else {
        PutMembers(rest, key, value);
        assert forall e :: e in Put(m, key, value) <==> e == first || e in Put(rest, key, value);
      }
    }
  }

  lemma KeysDiffer(m: seq<Entry>, key: string)
    requires Sorted(m) && m != [] && (key == m[0].key || Before(key, m[0].key))
    ensures forall e :: e in m[1..] ==> e.key != key
  {
    forall i | 1 <= i < |m| ensures m[i].key != key {
      if key != m[0].key { BeforeIsTransitive(key, m[0].key, m[i].key); }
      BeforeIsTotal(key, m[i].key);
    }
  }

  /** valueFor is the stored value. */
  lemma {:induction false} ValueOfEntry(m: seq<Entry>, e: Entry)
    requires Sorted(m) && e in m
    ensures ValueFor(m, e.key) == e.value
  {
    if m[0] != e {
      assert e in m[1..];
      BeforeIsTotal(m[0].key, m[0].key);
      if m[0].key == e.key { KeysDiffer(m, e.key); }
      ValueOfEntry(m[1..], e);
    }
  }

  lemma PutIsMap(m: seq<Entry>, key: string, value: string)
    ensures forall asked :: ValueFor(Put(m, key, value), asked) == if asked == key then value else ValueFor(m, asked)
  {
    forall asked ensures ValueFor(Put(m, key, value), asked) == if asked == key then value else ValueFor(m, asked) {
      PutThenValueFor(m, key, value, asked);
    }
  }

  lemma {:induction false} PutLast(m: seq<Entry>, key: string, value: string)
    requires forall i :: 0 <= i < |m| ==> Before(m[i].key, key)
    ensures Put(m, key, value) == m + [Entry(key, value)]
  {
    if m != [] {
      BeforeIsTotal(key, m[0].key);
      PutLast(m[1..], key, value);
    }
  }

  // ---------------------------------------------------------------- text form, on values

  function ForcedValue(key: string, value: string): string {
    if key == "face-detection-values" || key == "face-detection" then "off" else value
  }

  /** No key has '=' in it, no value ';', and the face-detection entries are forced. */
  predicate Clean(e: Entry) {
    '=' !in e.key && ';' !in e.value && ForcedValue(e.key, e.value) == e.value
  }

  predicate AllClean(m: seq<Entry>) {
    forall e :: e in m ==> Clean(e)
  }

  function Pair(e: Entry): string {
    e.key + "=" + e.value
  }

  /** flatten: entries without a value are left out, and each but the vector's last entry gets a ';'. */
  function Flat(m: seq<Entry>): string {
    if m == [] then ""
    else if m[0].value == "" then Flat(m[1..])
    else if |m| == 1 then Pair(m[0])
    else Pair(m[0]) + ";" + Flat(m[1..])
  }

  /** The first entry, if it has a value, is written as key, '=' and value, with a ';' behind it if it is not
      the vector's last. */
  lemma FlatWrites(e: Entry, m: seq<Entry>)
    ensures Flat([]) == ""
    ensures Flat([e]) == if e.value == "" then "" else e.key + "=" + e.value
    ensures m != [] ==> Flat([e] + m) == (if e.value == "" then "" else e.key + "=" + e.value + ";") + Flat(m)
  {
    assert ([e] + m)[1..] == m && [e][1..] == [];
    assert "" + Flat(m) == Flat(m);
  }

  /** Where `c` first stands; the length if nowhere. */
  function Strchr(s: string, c: char): (n: nat)
    ensures n <= |s|
    ensures n < |s| ==> s[n] == c
    ensures c !in s[..n]
  {
    if s == [] || s[0] == c then 0
    else
      var n := Strchr(s[1..], c);
      assert s[..1 + n] == [s[0]] + s[1..][..n];
      1 + n
  }

  /** The key and value at the front of a text, and the text behind their ';', None if they are the
      last; None if there is no '='. */
  function Item(text: string): (r: Option<(string, string, Option<string>)>)
    ensures r.Some? ==>
              var (key, value, rest) := r.value;
              '=' !in key && ';' !in value && (rest.Some? ==> |rest.value| < |text|)
  {
    var b := Strchr(text, '=');
    if b == |text| then None
    else
      var rest := text[b + 1..];
      var end := Strchr(rest, ';');
      Some((text[..b], rest[..end], if end == |rest| then None else Some(rest[end + 1..])))
  }

  /** unflatten's loop, with `m` filled so far. */
  function Unflat(m: seq<Entry>, text: string): seq<Entry>
    decreases |text|
  {
    match Item(text)
    case None => m
    case Some((key, value, None)) => Put(m, key, ForcedValue(key, value))
    case Some((key, value, Some(rest))) => Unflat(Put(m, key, ForcedValue(key, value)), rest)
  }

  lemma ForcedIsClean(key: string, value: string)
    requires '=' !in key && ';' !in value
    ensures Clean(Entry(key, ForcedValue(key, value)))
  {
  }

  // ---- what unflatten should read, said apart from it

  /** A text that starts with a key and a value, the value ended by a ';' or by the text. The entry is
      added, with the value or without; face detection is off whatever is read. Behind the ';' reading
      goes on. */
  lemma UnflatReads(m: seq<Entry>, key: string, value: string, rest: string)
    requires Sorted(m) && '=' !in key && ';' !in value
    ensures var stored := if key == "face-detection-values" || key == "face-detection" then "off" else value;
            var read := Unflat(m, key + "=" + value);
            && Sorted(read)
            && (forall e :: e in read <==> e == Entry(key, stored) || (e in m && e.key != key))
            && (forall asked :: ValueFor(read, asked) == if asked == key then stored else ValueFor(m, asked))
            && Unflat(m, key + "=" + value + ";" + rest) == Unflat(read, rest)
  {
    ItemReadsPair(Entry(key, value), rest);
    var stored := ForcedValue(key, value);
    PutKeepsSorted(m, key, stored);
    PutMembers(m, key, stored);
    PutIsMap(m, key, stored);
  }

  /** Any other text has no '=' in it and is not read. */
  lemma UnflatReadsNothing(m: seq<Entry>, text: string)
    requires '=' !in text
    ensures Unflat(m, text) == m
  {
    if Strchr(text, '=') < |text| {
      assert text[Strchr(text, '=')] in text;
    }
  }

  function NonEmpty(m: seq<Entry>): (r: seq<Entry>)
    ensures forall e :: e in r <==> e in m && e.value != ""
  {
    if m == [] then []
    else
      assert forall e :: e in m <==> e == m[0] || e in m[1..];
      if m[0].value == "" then NonEmpty(m[1..]) else [m[0]] + NonEmpty(m[1..])
  }

  lemma {:induction false} StrchrFinds(s: string, c: char, rest: string)
    requires c !in s && (rest == [] || rest[0] == c)
    ensures Strchr(s + rest, c) == |s|
  {
    if s == [] {
      assert s + rest == rest;
    } else {
      assert (s + rest)[1..] == s[1..] + rest;
      StrchrFinds(s[1..], c, rest);
    }
  }

  /** One pair is read back, whether the text ends there or goes on behind a ';'. */
  lemma ItemReadsPair(e: Entry, rest: string)
    requires '=' !in e.key && ';' !in e.value
    ensures Item(Pair(e)) == Some((e.key, e.value, None))
    ensures Item(Pair(e) + ";" + rest) == Some((e.key, e.value, Some(rest)))
  {
    StrchrFinds(e.key, '=', "=" + e.value);
    assert Pair(e) == e.key + ("=" + e.value);
    assert Pair(e)[..|e.key|] == e.key && Pair(e)[|e.key| + 1..] == e.value;
    StrchrFinds(e.value, ';', "");
    assert e.value + "" == e.value && e.value[..|e.value|] == e.value;

    var text, tail := Pair(e) + ";" + rest, e.value + (";" + rest);
    assert text == e.key + ("=" + tail);
    StrchrFinds(e.key, '=', "=" + tail);
    assert text[..|e.key|] == e.key && text[|e.key| + 1..] == tail;
    StrchrFinds(e.value, ';', ";" + rest);
    assert tail[..|e.value|] == e.value && tail[|e.value| + 1..] == rest;
  }

  function PutAll(m: seq<Entry>, s: seq<Entry>): seq<Entry>
    decreases |s|
  {
    if s == [] then m else PutAll(Put(m, s[0].key, s[0].value), s[1..])
  }

  /** Reading back what flatten wrote adds the entries that have a value, in order. */
  lemma {:induction false} UnflatOfFlat(m: seq<Entry>, s: seq<Entry>)
    requires AllClean(s)
    ensures Unflat(m, Flat(s)) == PutAll(m, NonEmpty(s))
    decreases |s|
  {
    if s != [] {
      if s[0].value == "" {
        UnflatOfFlat(m, s[1..]);
      } else {
        assert Clean(s[0]);
        ItemReadsPair(s[0], Flat(s[1..]));
        UnflatOfFlat(Put(m, s[0].key, s[0].value), s[1..]);
        assert NonEmpty(s)[1..] == NonEmpty(s[1..]);
        assert |s| == 1 ==> NonEmpty(s[1..]) == [];
      }
    }
  }

  /** Adding ascending entries to an empty vector appends them. */
  lemma {:induction false} PutAllAppends(s: seq<Entry>, n: nat)
    requires Sorted(s) && n <= |s|
    ensures PutAll(s[..n], s[n..]) == s
    decreases |s| - n
  {
    if n == |s| {
      assert s[..n] == s;
    } else {
      PutLast(s[..n], s[n].key, s[n].value);
      assert s[..n] + [Entry(s[n].key, s[n].value)] == s[..n + 1];
      assert s[n..][1..] == s[n + 1..];
      PutAllAppends(s, n + 1);
    }
  }

  lemma {:induction false} NonEmptyIsSorted(m: seq<Entry>)
    requires Sorted(m)
    ensures Sorted(NonEmpty(m))
  {
    if m != [] {
      NonEmptyIsSorted(m[1..]);
      ConsSorted(m[0], NonEmpty(m[1..]), m);
    }
  }

  /** unflatten(flatten(m)) is m without its empty-valued entries. */
  lemma RoundTrip(m: seq<Entry>)
    requires Sorted(m) && AllClean(m)
    ensures Unflat([], Flat(m)) == NonEmpty(m)
  {
    UnflatOfFlat([], m);
    NonEmptyIsSorted(m);
    var kept := NonEmpty(m);
    assert kept[..0] == [] && kept[0..] == kept;
    PutAllAppends(kept, 0);
  }

  /** Flattening the result again gives the same text but for a ';' at its end, which the first text
      has exactly when the last entry has no value and some other does. */
  lemma {:induction false} FlattenAgain(m: seq<Entry>)
    ensures Flat(m) == Flat(NonEmpty(m)) + if NonEmpty(m) != [] && m[|m| - 1].value == "" then ";" else ""
  {
    if |m| > 1 {
      var e, rest := m[0], m[1..];
      FlattenAgain(rest);
      assert m == [e] + rest;
      if e.value != "" && NonEmpty(rest) == [] {
        LastOfEmpty(rest);
        FlatOfOnly(e, rest);
      } else if e.value != "" {
        FlatWrites(e, rest);
        FlatWrites(e, NonEmpty(rest));
        Associates(e.key + "=" + e.value + ";", Flat(NonEmpty(rest)), if m[|m| - 1].value == "" then ";" else "");
      }
    }
  }

  lemma FlatOfOnly(e: Entry, rest: seq<Entry>)
    requires e.value != "" && rest != [] && NonEmpty(rest) == [] && Flat(rest) == Flat([]) + ""
    ensures NonEmpty([e] + rest) == [e] && Flat([e] + rest) == Flat([e]) + ";"
  {
    FlatWrites(e, rest);
    assert ([e] + rest)[1..] == rest;
    assert e.key + "=" + e.value + ";" + "" == e.key + "=" + e.value + ";";
  }

  lemma LastOfEmpty(m: seq<Entry>)
    requires m != [] && NonEmpty(m) == []
    ensures m[|m| - 1].value == ""
  {
    assert m[|m| - 1] in m;
  }

  lemma {:induction false} NonEmptyKeepsValues(m: seq<Entry>, key: string)
    requires Sorted(m)
    ensures ValueFor(NonEmpty(m), key) == ValueFor(m, key)
  {
    if m != [] {
      NonEmptyKeepsValues(m[1..], key);
      if m[0].key == key && m[0].value == "" {
        KeyOnce(m, key);
      }
    }
  }

  lemma KeyOnce(m: seq<Entry>, key: string)
    requires Sorted(m) && m != [] && m[0].key == key
    ensures ValueFor(m[1..], key) == ""
  {
    forall i | 0 <= i < |m[1..]| ensures m[1..][i].key != key {
      BeforeIsTotal(key, m[i + 1].key);
    }
    NoSuchKey(m[1..], key);
  }

  lemma {:induction false} NoSuchKey(m: seq<Entry>, key: string)
    requires forall i :: 0 <= i < |m| ==> m[i].key != key
    ensures ValueFor(m, key) == ""
  {
    if m != [] {
      NoSuchKey(m[1..], key);
    }
  }

  /** To get() the map read back from its text is the map itself, for every key. */
  lemma GetSurvivesRoundTrip(m: seq<Entry>, key: string)
    requires Sorted(m) && AllClean(m)
    ensures ValueFor(Unflat([], Flat(m)), key) == ValueFor(m, key)
  {
    RoundTrip(m);
    NonEmptyKeepsValues(m, key);
  }

  // ---------------------------------------------------------------- every reachable map

  datatype Op =
    | SetOp(key: Option<string>, value: Option<string>)
    | UnflattenOp(text: string)
    | RemoveOp(removed: string)

  /** Whether set() takes a key and a value. */
  predicate Settable(key: Option<string>, value: Option<string>) {
    && key.Some? && value.Some?
    && '=' !in key.value && ';' !in key.value && '=' !in value.value && ';' !in value.value
  }

  function Apply(m: seq<Entry>, op: Op): seq<Entry> {
    match op
    case SetOp(key, value) =>
      if Settable(key, value) then Put(m, key.value, ForcedValue(key.value, value.value)) else m
    case UnflattenOp(text) => Unflat([], text)
    case RemoveOp(key) => WithoutKey(m, key)
  }

  /** `after` is `before` with the value for the key, or "off" for face detection. */
  ghost predicate Stores(before: seq<Entry>, after: seq<Entry>, key: string, value: string) {
    var stored := if key == "face-detection-values" || key == "face-detection" then "off" else value;
    && (forall e :: e in after <==> e == Entry(key, stored) || (e in before && e.key != key))
    && (forall asked :: ValueFor(after, asked) == if asked == key then stored else ValueFor(before, asked))
  }

  /** A key and a value with neither '=' nor ';' in them are stored, and every other key keeps its value. */
  lemma SetStores(m: seq<Entry>, key: string, value: string)
    requires Sorted(m) && '=' !in key && ';' !in key && '=' !in value && ';' !in value
    ensures Stores(m, Apply(m, SetOp(Some(key), Some(value))), key, value)
  {
    PutMembers(m, key, ForcedValue(key, value));
    PutIsMap(m, key, ForcedValue(key, value));
  }

  function Run(m: seq<Entry>, ops: seq<Op>): seq<Entry>
    decreases |ops|
  {
    if ops == [] then m else Run(Apply(m, ops[0]), ops[1..])
  }

  lemma PutKeepsClean(m: seq<Entry>, e: Entry)
    requires AllClean(m) && Clean(e)
    ensures AllClean(Put(m, e.key, e.value))
  {
  }

  lemma {:induction false} UnflatIsClean(m: seq<Entry>, text: string)
    requires Sorted(m) && AllClean(m)
    ensures Sorted(Unflat(m, text)) && AllClean(Unflat(m, text))
    decreases |text|
  {
    if Item(text).Some? {
      var (key, value, rest) := Item(text).value;
      var e := Entry(key, ForcedValue(key, value));
      ForcedIsClean(key, value);
      PutKeepsSorted(m, e.key, e.value);
      PutKeepsClean(m, e);
      if rest.Some? {
        UnflatIsClean(Put(m, e.key, e.value), rest.value);
      }
    }
  }

  lemma ApplyKeepsClean(m: seq<Entry>, op: Op)
    requires Sorted(m) && AllClean(m)
    ensures Sorted(Apply(m, op)) && AllClean(Apply(m, op))
  {
    match op {
      case SetOp(key, value) =>
        if Settable(key, value) {
          PutKeepsSorted(m, key.value, ForcedValue(key.value, value.value));
          PutKeepsClean(m, Entry(key.value, ForcedValue(key.value, value.value)));
        }
      case UnflattenOp(text) => UnflatIsClean([], text);
      case RemoveOp(_) =>
    }
  }

  lemma {:induction false} RunKeepsClean(m: seq<Entry>, ops: seq<Op>)
    requires Sorted(m) && AllClean(m)
    ensures Sorted(Run(m, ops)) && AllClean(Run(m, ops))
    decreases |ops|
  {
    if ops != [] {
      ApplyKeepsClean(m, ops[0]);
      RunKeepsClean(Apply(m, ops[0]), ops[1..]);
    }
  }

  /** Every map that set, unflatten and remove can build survives flatten and unflatten, but for its
      entries without a value, and forces face detection off wherever it has an entry for it. */
  lemma ReachableRoundTrip(ops: seq<Op>)
    ensures var m := Run([], ops);
            && Unflat([], Flat(m)) == NonEmpty(m)
            && forall e :: e in m && e.key in {"face-detection-values", "face-detection"} ==> e.value == "off"
  {
    RunKeepsClean([], ops);
    RoundTrip(Run([], ops));
  }

  // ---------------------------------------------------------------- the class

  /** The bounds of the next key and value, by two calls of strchr. */
  method FindItem(a: string) returns (item: Option<(string, string, Option<string>)>)
    ensures item == Item(a)
  {
    var b := Strchr(a, '=');
    if b == |a| { return None; }
    var key, rest := a[..b], a[b + 1..];
    var end := Strchr(rest, ';');
    if end == |rest| {
      assert rest[..end] == rest;
      return Some((key, rest, None));
    }
    return Some((key, rest[..end], Some(rest[end + 1..])));
  }

  const KEY_PREVIEW_SIZE := "preview-size"
  const KEY_SUPPORTED_PREVIEW_SIZES := "preview-size-values"

  class Parameters {
    var entries: seq<Entry>

    ghost predicate Valid()
      reads this
    {
      Sorted(entries) && AllClean(entries)
    }

    constructor ()
      ensures Valid() && entries == []
    {
      entries := [];
    }

    method Flatten() returns (flattened: string)
      ensures flattened == Flat(entries)
    {
      flattened := "";
      for i := 0 to |entries|
        invariant Flat(entries) == flattened + Flat(entries[i..])
      {
        var e := entries[i];
        assert entries[i..][1..] == entries[i + 1..];
        if e.value != "" {
          flattened := flattened + e.key + "=" + e.value;
          if i != |entries| - 1 {
            flattened := flattened + ";";
          }
        }
      }
    }

    method Unflatten(params: string)
      modifies this
      ensures Valid() && entries == Unflat([], params)
    {
      entries := [];
      var a := Some(params);
      while a.Some?
        invariant Valid()
        invariant (if a.Some? then Unflat(entries, a.value) else entries) == Unflat([], params)
        decreases if a.Some? then |a.value| + 1 else 0
      {
        a := NextItem(a.value);
      }
    }

    /** The body of unflatten's loop: takes the item at the front of the text; None once the loop ends. */
    method NextItem(text: string) returns (a: Option<string>)
      requires Valid()
      modifies this
      ensures Valid() && (a.Some? ==> |a.value| < |text|)
      ensures (if a.Some? then Unflat(entries, a.value) else entries) == Unflat(old(entries), text)
    {
      var item := FindItem(text);
      if item.None? { return None; }
      var (key, value, rest) := item.value;
      Add(key, value);
      return rest;
    }

    method Add(key: string, value: string)
      requires Valid() && '=' !in key && ';' !in value
      modifies this
      ensures Valid() && entries == Put(old(entries), key, ForcedValue(key, value))
    {
      PutKeepsSorted(entries, key, ForcedValue(key, value));
      PutKeepsClean(entries, Entry(key, ForcedValue(key, value)));
      entries := Put(entries, key, ForcedValue(key, value));
    }

    /** Refuses a null pointer, and '=' and ';' in either string. */
    method Set(key: Option<string>, value: Option<string>)
      requires Valid()
      modifies this
      ensures Valid() && entries == Apply(old(entries), SetOp(key, value))
      ensures key.None? || value.None? ==> entries == old(entries)
      ensures key.Some? && ('=' in key.value || ';' in key.value) ==> entries == old(entries)
      ensures value.Some? && ('=' in value.value || ';' in value.value) ==> entries == old(entries)
      ensures (key.Some? && value.Some? && '=' !in key.value && ';' !in key.value && '=' !in value.value
               && ';' !in value.value) ==> Stores(old(entries), entries, key.value, value.value)
    {
      if key.None? || value.None? { return; }
      if '=' in key.value || ';' in key.value { return; }
      if '=' in value.value || ';' in value.value { return; }
      SetStores(entries, key.value, value.value);
      Add(key.value, value.value);
    }

    /** None for a key without a value. */
    method Get(key: string) returns (value: Option<string>)
      ensures value == if ValueFor(entries, key) == "" then None else Some(ValueFor(entries, key))
    {
      var v := ValueFor(entries, key);
      value := if |v| == 0 then None else Some(v);
    }

    method Remove(key: string)
      requires Valid()
      modifies this
      ensures Valid() && entries == Apply(old(entries), RemoveOp(key))
      ensures forall e :: e in entries <==> e in old(entries) && e.key != key
    {
      entries := WithoutKey(entries, key);
    }

    /** Setting a size is never refused, for any two 32-bit numbers. */
    method SetPreviewSize(size: Size)
      requires Valid()
      modifies this
      ensures Valid() && entries == Put(old(entries), "preview-size", SizeText(size))
    {
      SizeTextIsPlain(size);
      Set(Some(KEY_PREVIEW_SIZE), Some(SizeText(size)));
    }

    method GetPreviewSize() returns (size: Size)
      ensures size == SizeAt(entries, "preview-size")
      ensures ValueFor(entries, "preview-size") == "" ==> size == Size(-1, -1)
      ensures ValueFor(entries, "preview-size") != "" ==>
                match ParsePair(ValueFor(entries, "preview-size"), 'x')
                case None => size == Size(-1, -1)
                case Some((stored, _)) => size == stored
    {
      size := Size(-1, -1);
      var p := Get(KEY_PREVIEW_SIZE);
      if p.None? { return; }
      var pair := ParsePair(p.value, 'x');
      if pair.Some? {
        size := pair.value.0;
      }
    }

    method GetSupportedPreviewSizes() returns (sizes: seq<Size>)
      ensures sizes == SizesOf(ValueFor(entries, "preview-size-values"))
      ensures ValueFor(entries, "preview-size-values") == "" ==> sizes == []
    {
      var text := Get(KEY_SUPPORTED_PREVIEW_SIZES);
      sizes := [];
      if text.Some? {
        sizes := ParseSizesList(text.value);
      }
    }
  }

  /** The size stored under a key; -1 by -1 if there is none, or no pair. */
  function SizeAt(m: seq<Entry>, key: string): Size {
    var pair := ParsePair(ValueFor(m, key), 'x');
    if ValueFor(m, key) != "" && pair.Some? then pair.value.0 else Size(-1, -1)
  }

  /** Setting and then getting a size is the identity, for every key set() takes but the two of face
      detection; other keys keep theirs. */
  lemma SetThenGetSize(m: seq<Entry>, key: string, size: Size, other: string)
    requires Sorted(m) && '=' !in key && ';' !in key && key !in {"face-detection-values", "face-detection"}
    ensures SizeAt(Apply(m, SetOp(Some(key), Some(SizeText(size)))), other)
            == if other == key then size else SizeAt(m, other)
  {
    SizeTextIsPlain(size);
    SetStores(m, key, SizeText(size));
    ParsePairReadsSize(size, "");
    assert SizeText(size) + "" == SizeText(size);
  }

  /** And so is setting a non-empty list's text and getting the list. */
  lemma SetThenGetSizes(m: seq<Entry>, key: string, sizes: seq<Size>)
    requires Sorted(m) && '=' !in key && ';' !in key && key !in {"face-detection-values", "face-detection"}
    requires sizes != []
    ensures SizesOf(ValueFor(Apply(m, SetOp(Some(key), Some(SizesText(sizes)))), key)) == sizes
  {
    SizesTextIsPlain(sizes);
    SetStores(m, key, SizesText(sizes));
    SizesRoundTrip(sizes);
  }
}
