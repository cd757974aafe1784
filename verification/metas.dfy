/**
 * Story and scenario meta (JBehave's "@key value" annotations): turning
 * them into maps, merging several of them, and rendering them as the
 * space-separated description text sent with an item.
 */
module Metas {
  import opened Wrappers
  import opened Text

  /** One meta property: a name and its (non-null) value. */
  datatype Property = Property(name: string, value: string)

  predicate DistinctNames(ps: seq<Property>) {
    forall i, j :: 0 <= i < j < |ps| ==> ps[i].name != ps[j].name
  }

  /** A meta: its properties in iteration order, each name once. */
  type Meta = ps: seq<Property> | DistinctNames(ps) witness []

  /** One entry of a Java Map<String, String> in iteration order; the value may be null. */
  datatype Entry = Entry(key: string, value: Option<string>)

  /** metaToMap: a null meta gives the empty map; otherwise each property name maps to its value. */
  function MetaToMap(m: Option<Meta>): (r: map<string, string>)
    ensures m.None? ==> r == map[]
    ensures m.Some? ==> forall i :: 0 <= i < |m.value| ==> m.value[i].name in r && r[m.value[i].name] == m.value[i].value
    ensures m.Some? ==> forall k :: k in r ==> exists i :: 0 <= i < |m.value| && m.value[i].name == k
  {
    if m.None? then map[] else PropertiesToMap(m.value)
  }

  function PropertiesToMap(ps: Meta): (r: map<string, string>)
    ensures forall i :: 0 <= i < |ps| ==> ps[i].name in r && r[ps[i].name] == ps[i].value
    ensures forall k :: k in r ==> exists i :: 0 <= i < |ps| && ps[i].name == k
  {
    if ps == [] then map[]
    else
      var last := ps[|ps| - 1];
      var front: Meta := ps[..|ps| - 1];
      assert forall i :: 0 <= i < |front| ==> front[i] == ps[i] && front[i].name != last.name;
      PropertiesToMap(front)[last.name := last.value]
  }

  /** Specification of metasToMap: the metas' maps merged left to right. */
  function MergeMetas(metas: seq<Option<Meta>>): map<string, string> {
    if metas == [] then map[]
    else MergeMetas(metas[..|metas| - 1]) + MetaToMap(metas[|metas| - 1])
  }

  /** metasToMap: putAll of each meta's map, in order. */
  method MetasToMap(metas: seq<Option<Meta>>) returns (r: map<string, string>)
    ensures r == MergeMetas(metas)
  {
    r := map[];
    for i := 0 to |metas|
      invariant r == MergeMetas(metas[..i])
    {
      assert metas[..i + 1][..i] == metas[..i];
      r := r + MetaToMap(metas[i]);
    }
    assert metas[..|metas|] == metas;
  }

  predicate HasKey(m: Option<Meta>, k: string) {
    k in MetaToMap(m)
  }

  /**
   * A key's merged value is the one given by the LAST meta that has the
   * key: later metas override earlier ones.
   */
  lemma {:induction false} MergeLastWins(metas: seq<Option<Meta>>, i: nat, k: string)
    requires i < |metas| && HasKey(metas[i], k)
    requires forall j :: i < j < |metas| ==> !HasKey(metas[j], k)
    ensures k in MergeMetas(metas) && MergeMetas(metas)[k] == MetaToMap(metas[i])[k]
  {
    var n := |metas| - 1;
    if i < n {
      MergeLastWins(metas[..n], i, k);
      assert !HasKey(metas[n], k);
    }
  }

  /** A key that no meta has is absent from the merge; null metas and no metas contribute nothing. */
  lemma {:induction false} MergeAbsent(metas: seq<Option<Meta>>, k: string)
    requires forall j :: 0 <= j < |metas| ==> !HasKey(metas[j], k)
    ensures k !in MergeMetas(metas)
  {
    if metas != [] {
      MergeAbsent(metas[..|metas| - 1], k);
    }
  }

  /** The parts joined with sep between neighbours, "" for no parts (Guava's Joiner and the StringBuilder loops). */
  function Join(parts: seq<string>, sep: string): string {
    if parts == [] then ""
    else if |parts| == 1 then parts[0]
    else Join(parts[..|parts| - 1], sep) + sep + parts[|parts| - 1]
  }

  /** Where part i starts in the joined text: after each earlier part and its separator. */
  function Offset(parts: seq<string>, sep: string, i: nat): nat
    requires i <= |parts|
  {
    if i == 0 then 0 else Offset(parts, sep, i - 1) + |parts[i - 1]| + |sep|
  }

  /** Joining the first k parts ends with part k - 1, placed at its offset. */
  lemma {:induction false} JoinEnd(parts: seq<string>, sep: string, k: nat)
    requires 1 <= k <= |parts|
    ensures |Join(parts[..k], sep)| == Offset(parts, sep, k - 1) + |parts[k - 1]|
    ensures Join(parts[..k], sep)[Offset(parts, sep, k - 1)..] == parts[k - 1]
    ensures k >= 2 ==> Join(parts[..k], sep) == Join(parts[..k - 1], sep) + sep + parts[k - 1]
  {
    var upto := parts[..k];
    if k >= 2 {
      assert upto[..k - 1] == parts[..k - 1];
      JoinEnd(parts, sep, k - 1);
    }
  }

  /** Joining a leading run of the parts gives a prefix of joining them all. */
  lemma {:induction false} JoinPrefix(parts: seq<string>, sep: string, k: nat)
    requires 1 <= k <= |parts|
    ensures IsPrefix(Join(parts[..k], sep), Join(parts, sep))
  {
    var n := |parts| - 1;
    if k == |parts| {
      assert parts[..k] == parts;
    } else {
      assert parts[..n][..k] == parts[..k];
      JoinPrefix(parts[..n], sep, k);
    }
  }

  /** Part i of the joined text sits at its offset; the last part ends the text. */
  lemma {:induction false} JoinPartAt(parts: seq<string>, sep: string, i: nat)
    requires i < |parts|
    ensures Offset(parts, sep, i) + |parts[i]| <= |Join(parts, sep)|
    ensures Join(parts, sep)[Offset(parts, sep, i)..Offset(parts, sep, i) + |parts[i]|] == parts[i]
    ensures i + 1 == |parts| ==> |Join(parts, sep)| == Offset(parts, sep, i) + |parts[i]|
  {
    var whole := Join(parts, sep);
    var at := Offset(parts, sep, i);
    var pre := Join(parts[..i + 1], sep);
    JoinEnd(parts, sep, i + 1);
    JoinPrefix(parts, sep, i + 1);
    assert whole[..|pre|] == pre;
    assert whole[at..at + |parts[i]|] == pre[at..];
    if i + 1 == |parts| {
      assert parts[..i + 1] == parts;
    }
  }

  /** The separator follows every part but the last. */
  lemma {:induction false} JoinSepAfter(parts: seq<string>, sep: string, i: nat)
    requires i + 1 < |parts|
    ensures Offset(parts, sep, i + 1) <= |Join(parts, sep)|
    ensures Join(parts, sep)[Offset(parts, sep, i) + |parts[i]|..Offset(parts, sep, i + 1)] == sep
  {
    var whole := Join(parts, sep);
    var pre := Join(parts[..i + 1], sep);
    var pre2 := Join(parts[..i + 2], sep);
    JoinEnd(parts, sep, i + 1);
    JoinEnd(parts, sep, i + 2);
    assert parts[..i + 2][..i + 1] == parts[..i + 1];
    JoinPrefix(parts, sep, i + 2);
    assert whole[..|pre2|] == pre2;
    assert whole[|pre|..|pre| + |sep|] == pre2[|pre|..|pre| + |sep|];
  }

  /** The meta entries rendered one by one with joinMeta(key, value). */
  function Rendered(entries: seq<Entry>): (r: seq<string>)
    ensures |r| == |entries|
    ensures forall i :: 0 <= i < |entries| ==> r[i] == JoinMetaEntry(entries[i].key, entries[i].value)
  {
    seq(|entries|, i requires 0 <= i < |entries| => JoinMetaEntry(entries[i].key, entries[i].value))
  }

  /** Specification of joinMeta(Map): the renderings separated by single spaces. */
  function EntriesText(entries: seq<Entry>): string {
    Join(Rendered(entries), " ")
  }

  /** joinMeta(Map): "" for no entries, else the first rendering followed by " " and each next one. */
  method JoinMetaMap(entries: seq<Entry>) returns (r: string)
    ensures r == EntriesText(entries)
  {
    if entries == [] {
      return "";
    }
    r := JoinMetaEntry(entries[0].key, entries[0].value);
    var i := 1;
    assert Rendered(entries)[..1] == [r];
    while i < |entries|
      invariant 1 <= i <= |entries|
      invariant r == Join(Rendered(entries)[..i], " ")
    {
      JoinEnd(Rendered(entries), " ", i + 1);
      r := r + " " + JoinMetaEntry(entries[i].key, entries[i].value);
      i := i + 1;
    }
    assert Rendered(entries)[..i] == Rendered(entries);
  }

  /** The properties of a meta as map entries (values never null). */
  function EntriesOf(m: Meta): (r: seq<Entry>)
    ensures |r| == |m|
    ensures forall i :: 0 <= i < |m| ==> r[i] == Entry(m[i].name, Some(m[i].value))
  {
    seq(|m|, i requires 0 <= i < |m| => Entry(m[i].name, Some(m[i].value)))
  }

  /** Specification of joinMeta(Meta): "" for a null meta, else its properties rendered and joined. */
  function MetaText(m: Option<Meta>): string {
    if m.None? then "" else EntriesText(EntriesOf(m.value))
  }

  /** joinMeta(Meta). */
  method JoinMeta(m: Option<Meta>) returns (r: string)
    ensures r == MetaText(m)
  {
    if m.None? {
      return "";
    }
    r := JoinMetaMap(EntriesOf(m.value));
  }

  /** joinMetas: each meta's text, joined by single spaces (a null meta still takes its place). */
  function JoinMetas(metas: seq<Option<Meta>>): (r: string)
    ensures |metas| == 2 ==> r == MetaText(metas[0]) + " " + MetaText(metas[1])
  {
    var parts := seq(|metas|, i requires 0 <= i < |metas| => MetaText(metas[i]));
    assert |metas| == 2 ==> parts[..1] == [parts[0]] && Join(parts[..1], " ") == parts[0];
    Join(parts, " ")
  }
}
