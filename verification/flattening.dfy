/** The nested-field cell: a list of orbit paths shown as one
    `name:value, name:value` string built from the first path, without its
    back-reference to the owning record. */
module Flattening {
  import opened Text
  import opened Records

  /** One attribute as its name, a colon, and its value. */
  function EntryText(e: Entry): string {
    e.name + ":" + e.text
  }

  function EntryTexts(es: seq<Entry>): (r: seq<string>)
    ensures |r| == |es|
    ensures forall i :: 0 <= i < |es| ==> r[i] == EntryText(es[i])
  {
    seq(|es|, i requires 0 <= i < |es| => EntryText(es[i]))
  }

  /** The cell text for one orbit path: its attributes after `del` of the
      back-reference, each as `name:value`, joined with `", "`. */
  function Flatten(sub: SubRecord): (r: string)
    requires HasEntry(sub.entries, BackReference)
    ensures r == "" <==> |sub.entries| == 1
    ensures |sub.entries| > 1 ==>
              var first := EntryText(Delete(sub.entries, BackReference)[0]);
              |first| <= |r| && r[..|first|] == first
  {
    Join(EntryTexts(Delete(sub.entries, BackReference)), ListSeparator)
  }

  /** Reads one `name:value` piece back, splitting at its first colon. */
  function ParseEntry(t: string): Entry {
    var (k, v) := SplitAtColon(t);
    Entry(k, v)
  }

  /** Reads a flattened cell back into its attributes. */
  function ParseFlattened(s: string): seq<Entry> {
    if s == "" then []
    else
      var parts := Split(s);
      seq(|parts|, i requires 0 <= i < |parts| => ParseEntry(parts[i]))
  }

  /** An attribute whose text can be read back unambiguously: no colon in
      its name and no `", "` in its name or value. */
  predicate Plain(e: Entry) {
    ':' !in e.name && NoListSeparator(e.name) && NoListSeparator(e.text)
  }

  lemma PlainEntryText(e: Entry)
    requires Plain(e)
    ensures NoListSeparator(EntryText(e))
    ensures ParseEntry(EntryText(e)) == e
  {
    ColonRoundTrip(e.name, e.text);
    var s := EntryText(e);
    var n := |e.name|;
    forall i | 0 <= i < |s| - 1 ensures !(s[i] == ',' && s[i + 1] == ' ') {
      if i < n - 1 {
        assert s[i] == e.name[i] && s[i + 1] == e.name[i + 1];
      } else if i == n - 1 {
        assert s[i + 1] == ':';
      } else if i == n {
        assert s[i] == ':';
      } else {
        assert s[i] == e.text[i - n - 1] && s[i + 1] == e.text[i - n];
      }
    }
  }

  /** The flattened cell can be read back: it holds exactly the orbit path's
      attributes other than the deleted back-reference, in order. */
  lemma FlattenRoundTrip(sub: SubRecord)
    requires HasEntry(sub.entries, BackReference)
    requires forall i :: 0 <= i < |sub.entries| ==> Plain(sub.entries[i])
    ensures ParseFlattened(Flatten(sub)) == Delete(sub.entries, BackReference)
  {
    var kept := Delete(sub.entries, BackReference);
    var texts := EntryTexts(kept);
    forall i | 0 <= i < |kept| ensures NoListSeparator(texts[i]) && ParseEntry(texts[i]) == kept[i] {
      assert kept[i] in sub.entries;
      PlainEntryText(kept[i]);
    }
    if |kept| > 0 {
      assert texts[0][|kept[0].name|] == ':';
      SplitJoinRoundTrip(texts);
    }
  }

  /** With distinct attribute names (a `__dict__`), the cell lists exactly
      the attributes not called `neo_name`, in order, and reading it back
      finds no `neo_name`. */
  lemma FlattenOmitsBackReference(sub: SubRecord)
    requires HasEntry(sub.entries, BackReference)
    requires DistinctNames(sub.entries)
    ensures Flatten(sub) == Join(EntryTexts(Without(sub.entries, BackReference)), ListSeparator)
    ensures (forall i :: 0 <= i < |sub.entries| ==> Plain(sub.entries[i])) ==>
              forall e :: e in ParseFlattened(Flatten(sub)) ==> e.name != BackReference
  {
    DeleteIsWithout(sub.entries, BackReference);
    if forall i :: 0 <= i < |sub.entries| ==> Plain(sub.entries[i]) {
      FlattenRoundTrip(sub);
    }
  }

  /** An attribute whose name and value hold no line break. */
  predicate SingleLineEntry(e: Entry) {
    SingleLine(e.name) && SingleLine(e.text)
  }

  /** Without line breaks in the attributes there is none in the cell. */
  lemma FlattenSingleLine(sub: SubRecord)
    requires HasEntry(sub.entries, BackReference)
    requires forall i :: 0 <= i < |sub.entries| ==> SingleLineEntry(sub.entries[i])
    ensures SingleLine(Flatten(sub))
  {
    var kept := Delete(sub.entries, BackReference);
    var texts := EntryTexts(kept);
    forall i | 0 <= i < |texts| ensures SingleLine(texts[i]) {
      assert kept[i] in sub.entries;
      var e := kept[i];
      assert SingleLineEntry(e);
      assert texts[i] == e.name + ":" + e.text;
    }
    JoinSingleLine(texts, ListSeparator);
  }
}
