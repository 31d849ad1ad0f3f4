/** Nested metadata and the redaction applied to it before it leaves the audit log. */
module Redaction {

  /** Objects keep their entries in order, as the source's dictionaries do; a number is `mantissa` times ten to `exponent`. */
  datatype Json =
    | Null
    | Bool(flag: bool)
    | Number(mantissa: int, exponent: int)
    | Text(text: string)
    | List(items: seq<Json>)
    | Object(entries: seq<Entry>)

  datatype Entry = Entry(key: string, value: Json)

  const FRAGMENTS: seq<string> :=
    ["authorization", "cookie", "credential", "key", "password", "secret", "ticket", "token"]

  const REDACTED := Text("[REDACTED]")

  predicate Contains(s: string, fragment: string) {
    exists i :: 0 <= i <= |s| && fragment <= s[i..]
  }

  /** `casefold` is the language's own; only what it yields matters here. */
  predicate Sensitive(casefold: string -> string, key: string) {
    exists f :: f in FRAGMENTS && Contains(casefold(key), f)
  }

  function Redact(casefold: string -> string, v: Json): Json
    decreases v, 1
  {
    match v
    case Object(entries) => Object(RedactEntries(casefold, entries))
    case List(items) => List(RedactItems(casefold, items))
    case _ => v
  }

  function RedactItems(casefold: string -> string, items: seq<Json>): (r: seq<Json>)
    ensures |r| == |items|
    decreases items, 0
  {
    if items == [] then [] else [Redact(casefold, items[0])] + RedactItems(casefold, items[1..])
  }

  function RedactEntries(casefold: string -> string, entries: seq<Entry>): (r: seq<Entry>)
    ensures |r| == |entries|
    ensures forall i :: 0 <= i < |entries| ==> r[i].key == entries[i].key
    decreases entries, 0
  {
    if entries == [] then []
    else
      var e := entries[0];
      [Entry(e.key, if Sensitive(casefold, e.key) then REDACTED else Redact(casefold, e.value))]
      + RedactEntries(casefold, entries[1..])
  }

  /** Equal except beneath sensitive keys. */
  ghost predicate Alike(casefold: string -> string, v: Json, w: Json)
    decreases v, 1
  {
    match v
    case Object(entries) => w.Object? && AlikeEntries(casefold, entries, w.entries)
    case List(items) => w.List? && AlikeItems(casefold, items, w.items)
    case _ => v == w
  }

  ghost predicate AlikeItems(casefold: string -> string, a: seq<Json>, b: seq<Json>)
    decreases a, 0
  {
    |a| == |b| && (a == [] || (Alike(casefold, a[0], b[0]) && AlikeItems(casefold, a[1..], b[1..])))
  }

  ghost predicate AlikeEntries(casefold: string -> string, a: seq<Entry>, b: seq<Entry>)
    decreases a, 0
  {
    && |a| == |b|
    && (a == [] || (&& a[0].key == b[0].key
                    && (Sensitive(casefold, a[0].key) || Alike(casefold, a[0].value, b[0].value))
                    && AlikeEntries(casefold, a[1..], b[1..])))
  }

  /** Nothing left to redact: beneath every sensitive key there is only the marker. */
  ghost predicate Clean(casefold: string -> string, v: Json)
    decreases v, 1
  {
    match v
    case Object(entries) => CleanEntries(casefold, entries)
    case List(items) => CleanItems(casefold, items)
    case _ => true
  }

  ghost predicate CleanItems(casefold: string -> string, items: seq<Json>)
    decreases items, 0
  {
    items == [] || (Clean(casefold, items[0]) && CleanItems(casefold, items[1..]))
  }

  ghost predicate CleanEntries(casefold: string -> string, entries: seq<Entry>)
    decreases entries, 0
  {
    entries == [] ||
    (&& (if Sensitive(casefold, entries[0].key) then entries[0].value == REDACTED else Clean(casefold, entries[0].value))
     && CleanEntries(casefold, entries[1..]))
  }

  /** Two values look the same after redaction exactly when they differ only beneath sensitive keys. */
  lemma {:induction false} RedactionHidesExactlyTheSensitive(casefold: string -> string, v: Json, w: Json)
    ensures Redact(casefold, v) == Redact(casefold, w) <==> Alike(casefold, v, w)
    decreases v, 1
  {
    match v {
      case Object(entries) =>
        if w.Object? {
          EntriesHideExactly(casefold, entries, w.entries);
        }
      case List(items) =>
        if w.List? {
          ItemsHideExactly(casefold, items, w.items);
        }
      case _ =>
    }
  }

  lemma {:induction false} ItemsHideExactly(casefold: string -> string, a: seq<Json>, b: seq<Json>)
    ensures RedactItems(casefold, a) == RedactItems(casefold, b) <==> AlikeItems(casefold, a, b)
    decreases a, 0
  {
    if a != [] && b != [] {
      var ra, rb := RedactItems(casefold, a), RedactItems(casefold, b);
      RedactionHidesExactlyTheSensitive(casefold, a[0], b[0]);
      ItemsHideExactly(casefold, a[1..], b[1..]);
      assert ra[1..] == RedactItems(casefold, a[1..]) && rb[1..] == RedactItems(casefold, b[1..]);
      assert ra == [ra[0]] + ra[1..] && rb == [rb[0]] + rb[1..];
    }
  }

  lemma {:induction false} EntriesHideExactly(casefold: string -> string, a: seq<Entry>, b: seq<Entry>)
    ensures RedactEntries(casefold, a) == RedactEntries(casefold, b) <==> AlikeEntries(casefold, a, b)
    decreases a, 0
  {
    if a != [] && b != [] {
      var ra, rb := RedactEntries(casefold, a), RedactEntries(casefold, b);
      RedactionHidesExactlyTheSensitive(casefold, a[0].value, b[0].value);
      EntriesHideExactly(casefold, a[1..], b[1..]);
      assert ra[1..] == RedactEntries(casefold, a[1..]) && rb[1..] == RedactEntries(casefold, b[1..]);
      assert ra == [ra[0]] + ra[1..] && rb == [rb[0]] + rb[1..];
    }
  }

  /** The redacted value is alike to the original, so redacting again changes nothing. */
  lemma {:induction false} RedactionIsIdempotent(casefold: string -> string, v: Json)
    ensures Redact(casefold, Redact(casefold, v)) == Redact(casefold, v)
    decreases v, 1
  {
    match v {
      case Object(entries) => EntriesIdempotent(casefold, entries);
      case List(items) => ItemsIdempotent(casefold, items);
      case _ =>
    }
  }

  lemma {:induction false} ItemsIdempotent(casefold: string -> string, items: seq<Json>)
    ensures RedactItems(casefold, RedactItems(casefold, items)) == RedactItems(casefold, items)
    decreases items, 0
  {
    if items != [] {
      RedactionIsIdempotent(casefold, items[0]);
      ItemsIdempotent(casefold, items[1..]);
      assert RedactItems(casefold, items)[1..] == RedactItems(casefold, items[1..]);
    }
  }

  lemma {:induction false} EntriesIdempotent(casefold: string -> string, entries: seq<Entry>)
    ensures RedactEntries(casefold, RedactEntries(casefold, entries)) == RedactEntries(casefold, entries)
    decreases entries, 0
  {
    if entries != [] {
      RedactionIsIdempotent(casefold, entries[0].value);
      EntriesIdempotent(casefold, entries[1..]);
      assert RedactEntries(casefold, entries)[1..] == RedactEntries(casefold, entries[1..]);
    }
  }

  /** A value stays as it is exactly when there is nothing to redact in it. */
  lemma {:induction false} UntouchedIffClean(casefold: string -> string, v: Json)
    ensures Redact(casefold, v) == v <==> Clean(casefold, v)
    decreases v, 1
  {
    match v {
      case Object(entries) => EntriesUntouchedIffClean(casefold, entries);
      case List(items) => ItemsUntouchedIffClean(casefold, items);
      case _ =>
    }
  }

  lemma {:induction false} ItemsUntouchedIffClean(casefold: string -> string, items: seq<Json>)
    ensures RedactItems(casefold, items) == items <==> CleanItems(casefold, items)
    decreases items, 0
  {
    if items != [] {
      UntouchedIffClean(casefold, items[0]);
      ItemsUntouchedIffClean(casefold, items[1..]);
      assert RedactItems(casefold, items)[1..] == RedactItems(casefold, items[1..]);
      assert items == [items[0]] + items[1..];
    }
  }

  lemma {:induction false} EntriesUntouchedIffClean(casefold: string -> string, entries: seq<Entry>)
    ensures RedactEntries(casefold, entries) == entries <==> CleanEntries(casefold, entries)
    decreases entries, 0
  {
    if entries != [] {
      UntouchedIffClean(casefold, entries[0].value);
      EntriesUntouchedIffClean(casefold, entries[1..]);
      assert RedactEntries(casefold, entries)[1..] == RedactEntries(casefold, entries[1..]);
      assert entries == [entries[0]] + entries[1..];
    }
  }

  /** Each entry keeps its key; its value is the marker, or the redaction of the old value. */
  lemma {:induction false} EntryByEntry(casefold: string -> string, entries: seq<Entry>, i: nat)
    requires i < |entries|
    ensures RedactEntries(casefold, entries)[i] ==
            Entry(entries[i].key,
                  if Sensitive(casefold, entries[i].key) then REDACTED else Redact(casefold, entries[i].value))
    decreases entries
  {
    if i > 0 {
      EntryByEntry(casefold, entries[1..], i - 1);
    }
  }
}
