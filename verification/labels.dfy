/** Label sets as the Kubernetes `labels` package sees them: a string-to-string
    map. Two ways of combining them occur in the operator: `labels.Merge`, where
    the second set wins on a shared key, and the "add only what is missing" loop
    that lets the operator's own defaults win over user-supplied keys. */
module Labels {

  type LabelSet = map<string, string>

  /** `labels.Merge(labels1, labels2)`: every key of either set; on a shared
      key the value of `labels2` is kept. */
  function Merge(labels1: LabelSet, labels2: LabelSet): (r: LabelSet)
    ensures r.Keys == labels1.Keys + labels2.Keys
    ensures forall k :: k in labels2 ==> r[k] == labels2[k]
    ensures forall k :: k in labels1 && k !in labels2 ==> r[k] == labels1[k]
  {
    labels1 + labels2
  }

  /** The `for k, v := range extra { if !base.Has(k) { base[k] = v } }` loop:
      keys already present in `base` keep their value, every other key of
      `extra` is copied in. */
  function AddMissing(base: LabelSet, extra: LabelSet): (r: LabelSet)
    ensures r.Keys == base.Keys + extra.Keys
    ensures forall k :: k in base ==> r[k] == base[k]
    ensures forall k :: k in extra && k !in base ==> r[k] == extra[k]
    ensures extra == map[] ==> r == base
  {
    base + map k | k in extra.Keys - base.Keys :: extra[k]
  }

  /** Adding the missing keys is the same as merging with the arguments
      swapped: the set whose keys must survive goes second. */
  lemma AddMissingIsSwappedMerge(base: LabelSet, extra: LabelSet)
    ensures AddMissing(base, extra) == Merge(extra, base)
  {
    var a := AddMissing(base, extra);
    var m := Merge(extra, base);
    assert a.Keys == m.Keys;
    forall k | k in a
      ensures a[k] == m[k]
    {
    }
  }
}
