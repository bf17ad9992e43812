/** The data the writer formats: near-earth-object records whose fields are
    scalars or lists of orbit-path sub-records. Python's `__dict__`
    reflection is replaced by explicit, ordered name/value sequences. */
module Records {

  /** The sub-record attribute that repeats the owning record's name. */
  const BackReference: string := "neo_name"

  /** One attribute of a sub-record; its value is already in string form. */
  datatype Entry = Entry(name: string, text: string)

  /** An orbit path: its attributes in declaration order. */
  datatype SubRecord = SubRecord(entries: seq<Entry>)

  /** A record field holds a scalar (already in string form) or a list. */
  datatype Value = Scalar(text: string) | Nested(items: seq<SubRecord>)

  datatype Field = Field(name: string, value: Value)

  /** A near-earth object: its fields in declaration order. */
  datatype Record = Record(fields: seq<Field>)

  function Names(r: Record): (names: seq<string>)
    ensures |names| == |r.fields|
    ensures forall i :: 0 <= i < |names| ==> names[i] == r.fields[i].name
  {
    seq(|r.fields|, i requires 0 <= i < |r.fields| => r.fields[i].name)
  }

  predicate HasEntry(entries: seq<Entry>, name: string) {
    exists i :: 0 <= i < |entries| && entries[i].name == name
  }

  /** Attribute names are distinct, as the keys of a `__dict__` are. */
  predicate DistinctNames(entries: seq<Entry>) {
    forall i, j :: 0 <= i < j < |entries| ==> entries[i].name != entries[j].name
  }

  /** Position of the first entry called `name`. */
  function IndexOf(entries: seq<Entry>, name: string): (i: nat)
    requires HasEntry(entries, name)
    ensures i < |entries| && entries[i].name == name
    ensures forall j :: 0 <= j < i ==> entries[j].name != name
  {
    if entries[0].name == name then 0
    else
      assert HasEntry(entries[1..], name) by {
        var k :| 0 <= k < |entries| && entries[k].name == name;
        assert entries[1..][k - 1] == entries[k];
      }
      1 + IndexOf(entries[1..], name)
  }

  /** `del d[name]` on a dictionary: the entry called `name` is removed and
      the others keep their order. Python raises `KeyError` when there is no
      such entry, hence the precondition. */
  function Delete(entries: seq<Entry>, name: string): (r: seq<Entry>)
    requires HasEntry(entries, name)
    ensures |r| == |entries| - 1
    ensures forall e :: e in r ==> e in entries
  {
    var i := IndexOf(entries, name);
    entries[..i] + entries[i + 1..]
  }

  /** The entries not called `name`, in their original order. */
  function Without(entries: seq<Entry>, name: string): (r: seq<Entry>)
    ensures |r| <= |entries|
    ensures forall i :: 0 <= i < |r| ==> r[i].name != name
    ensures forall e :: e in r ==> e in entries
    ensures forall e :: e in entries && e.name != name ==> e in r
  {
    if |entries| == 0 then []
    else
      var rest := Without(entries[1..], name);
      if entries[0].name == name then rest else [entries[0]] + rest
  }

  lemma {:induction false} WithoutAbsent(entries: seq<Entry>, name: string)
    requires !HasEntry(entries, name)
    ensures Without(entries, name) == entries
  {
    if |entries| > 0 {
      assert entries[0].name != name;
      assert !HasEntry(entries[1..], name);
      WithoutAbsent(entries[1..], name);
      assert [entries[0]] + entries[1..] == entries;
    }
  }

  /** Deleting from a sequence whose head is not called `name` keeps the head. */
  lemma DeleteKeepsHead(entries: seq<Entry>, name: string)
    requires HasEntry(entries, name)
    requires entries[0].name != name
    ensures HasEntry(entries[1..], name)
    ensures Delete(entries, name) == [entries[0]] + Delete(entries[1..], name)
  {
    var rest := entries[1..];
    assert HasEntry(rest, name) by {
      var k :| 0 <= k < |entries| && entries[k].name == name;
      assert rest[k - 1] == entries[k];
    }
    var i := IndexOf(rest, name);
    assert IndexOf(entries, name) == i + 1;
    assert entries[..i + 1] == [entries[0]] + rest[..i];
    assert entries[i + 2..] == rest[i + 1..];
  }

  lemma DistinctTail(entries: seq<Entry>)
    requires |entries| > 0 && DistinctNames(entries)
    ensures DistinctNames(entries[1..])
  {
    var rest := entries[1..];
    forall i, j | 0 <= i < j < |rest| ensures rest[i].name != rest[j].name {
      assert rest[i] == entries[i + 1] && rest[j] == entries[j + 1];
    }
  }

  /** On a dictionary, where names are distinct, deleting the key `name`
      leaves exactly the entries not called `name`, in order. */
  lemma {:induction false} DeleteIsWithout(entries: seq<Entry>, name: string)
    requires DistinctNames(entries)
    requires HasEntry(entries, name)
    ensures Delete(entries, name) == Without(entries, name)
  {
    var rest := entries[1..];
    if entries[0].name == name {
      assert !HasEntry(rest, name);
      WithoutAbsent(rest, name);
      assert Delete(entries, name) == rest;
    } else {
      DeleteKeepsHead(entries, name);
      DistinctTail(entries);
      DeleteIsWithout(rest, name);
    }
  }
}
