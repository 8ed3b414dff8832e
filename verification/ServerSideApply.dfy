/** Server-side apply, key by key: who owns a field and what a forced apply makes of it. */
module ServerSideApply {
  import opened Meta

  /** Accurate is the manager that applies; Other stands for everybody else. */
  datatype Owner = Accurate | Other

  datatype Field = Field(value: string, owners: set<Owner>)

  type Fields<K> = map<K, Field>

  function Values<K>(fields: Fields<K>): map<K, string> {
    map k | k in fields :: fields[k].value
  }

  /** A forced apply by Accurate.  An applied key gets the applied value, and whoever wanted
      another value loses the key; a key that is no longer applied goes away if nobody else
      owns it. */
  function Apply<K>(have: Fields<K>, want: map<K, string>): (r: Fields<K>)
    ensures forall k | k in want :: k in r && r[k].value == want[k] && Accurate in r[k].owners
    ensures r.Keys <= have.Keys + want.Keys
    ensures forall k | k in have && k !in want :: k in r <==> have[k].owners != {Accurate}
    ensures forall k | k in r && k !in want :: r[k] == Field(have[k].value, have[k].owners - {Accurate})
  {
    map k | k in have.Keys + want.Keys && (k in want || have[k].owners != {Accurate}) ::
      if k !in want then Field(have[k].value, have[k].owners - {Accurate})
      else if k in have && have[k].value == want[k] then Field(want[k], have[k].owners + {Accurate})
      else Field(want[k], {Accurate})
  }

  /** Applying the same again changes nothing. */
  lemma ApplyTwice<K>(have: Fields<K>, want: map<K, string>)
    ensures Apply(Apply(have, want), want) == Apply(have, want)
  {
    var once := Apply(have, want);
    var twice := Apply(once, want);
    forall k | k in once
      ensures k in twice && twice[k] == once[k]
    {
      if k in want {
        assert once[k].owners + {Accurate} == once[k].owners;
      } else {
        assert once[k].owners == have[k].owners - {Accurate};
        assert once[k].owners - {Accurate} == once[k].owners;
      }
    }
  }

  /** The value of a key, if it is there. */
  function ValueAt<K>(fields: Fields<K>, k: K): Option<string> {
    if k in fields then Some(fields[k].value) else None
  }

  /** The value of a key that somebody else than Accurate stands for. */
  function UserValue<K>(fields: Fields<K>, k: K): Option<string> {
    if k in fields && fields[k].owners == {Accurate} then None else ValueAt(fields, k)
  }

  /** Every key of `want` is present in `have`, with the same value unless it is empty. */
  predicate Covered<K>(want: map<K, string>, have: Fields<K>) {
    forall k | k in want :: k in have && (want[k] == "" || have[k].value == want[k])
  }

  /** Which changes of a covering copy are noticed: a key is missing, or has another value where
      the wanted value is not empty.  Keys that are not wanted may come, go and change. */
  lemma DriftIsNoticed<K>(want: map<K, string>, have: Fields<K>, k: K, f: Field)
    requires Covered(want, have)
    ensures Covered(want, have - {k}) <==> k !in want
    ensures Covered(want, have[k := f]) <==> k !in want || want[k] == "" || f.value == want[k]
  {
  }

  /** What becomes of a key that is not applied any more: it goes unless others own it, and then
      only they do. */
  lemma DroppedKey<K>(have: Fields<K>, first: map<K, string>, last: map<K, string>, k: K)
    requires k in first && k !in last
    ensures var r := Apply(Apply(have, first), last);
            if k in have && have[k].value == first[k] && have[k].owners - {Accurate} != {}
            then k in r && r[k] == Field(first[k], have[k].owners - {Accurate})
            else k !in r
  {
    assert {Accurate} - {Accurate} == {};
    if k in have && have[k].value == first[k] {
      var owners := have[k].owners;
      assert owners + {Accurate} - {Accurate} == owners - {Accurate};
      assert owners + {Accurate} == {Accurate} <==> owners - {Accurate} == {};
    }
  }
}
