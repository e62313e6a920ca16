/** `getMaxEntry`: the entry of an object with the largest value, by a fold
    that starts from `["", -Infinity]` and replaces the running maximum only
    with a strictly greater value. */
module MaxEntry {

  /** A number of the extended line: the fold's seed is `-Infinity`. */
  datatype Extended = NegInfinity | Finite(r: real) | PosInfinity

  /** `a > b` on extended numbers. */
  predicate Greater(a: Extended, b: Extended) {
    match (a, b)
    case (Finite(x), Finite(y)) => x > y
    case (PosInfinity, _) => !b.PosInfinity?
    case (Finite(_), NegInfinity) => true
    case _ => false
  }

  /** `>` is a strict total order: irreflexive, transitive, and any two
      different numbers are comparable. */
  lemma GreaterStrictTotal(a: Extended, b: Extended, c: Extended)
    ensures !Greater(a, a)
    ensures Greater(a, b) && Greater(b, c) ==> Greater(a, c)
    ensures a != b ==> Greater(a, b) || Greater(b, a)
    ensures !(Greater(a, b) && Greater(b, a))
  {
  }

  /** An `Object.entries` pair. */
  type Entry = (string, Extended)

  /** The initial value of the fold. */
  const Seed: Entry := ("", NegInfinity)

  /** One step of the fold. */
  function Step(max: Entry, item: Entry): Entry {
    if Greater(item.1, max.1) then item else max
  }

  /** The fold over the entries, left to right. */
  function MaxEntry(entries: seq<Entry>): (m: Entry)
    ensures m == Seed || m in entries
    ensures forall e :: e in entries ==> !Greater(e.1, m.1)
  {
    if entries == [] then Seed
    else
      var init := entries[..|entries| - 1];
      var m := MaxEntry(init);
      assert forall e :: e in init ==> e in entries;
      assert entries == init + [entries[|entries| - 1]];
      GreaterStrictTotal(entries[|entries| - 1].1, m.1, NegInfinity);
      forall e | e in init ensures Greater(entries[|entries| - 1].1, m.1) ==> !Greater(e.1, entries[|entries| - 1].1) {
        GreaterStrictTotal(e.1, entries[|entries| - 1].1, m.1);
      }
      Step(m, entries[|entries| - 1])
  }

  /** An object without entries yields the seed. */
  lemma MaxEntryEmpty()
    ensures MaxEntry([]) == Seed
  {
  }

  /** Ties keep the earliest maximal entry: the result is an entry every
      earlier entry is strictly below, or the seed when no entry is above
      `-Infinity`. */
  lemma {:induction false} MaxEntryEarliest(entries: seq<Entry>)
    ensures var m := MaxEntry(entries);
      || (m == Seed && forall e :: e in entries ==> e.1 == NegInfinity)
      || exists i :: 0 <= i < |entries| && entries[i] == m && forall j :: 0 <= j < i ==> Greater(m.1, entries[j].1)
  {
    if entries != [] {
      var init, last := entries[..|entries| - 1], entries[|entries| - 1];
      assert entries == init + [last];
      MaxEntryEarliest(init);
      var m0 := MaxEntry(init);
      if Greater(last.1, m0.1) {
        forall j | 0 <= j < |entries| - 1 ensures Greater(last.1, entries[j].1) {
          assert entries[j] in init;
          GreaterStrictTotal(last.1, m0.1, entries[j].1);
          GreaterStrictTotal(m0.1, entries[j].1, NegInfinity);
        }
      } else if m0 == Seed && forall e :: e in init ==> e.1 == NegInfinity {
        assert last.1 == NegInfinity;
      } else {
        var i :| 0 <= i < |init| && init[i] == m0 && forall j :: 0 <= j < i ==> Greater(m0.1, init[j].1);
        assert entries[i] == m0;
      }
    }
  }

  /** When every value is above `-Infinity`, a non-empty object yields one of
      its own entries. */
  lemma MaxEntryIsEntry(entries: seq<Entry>)
    requires entries != [] && forall e :: e in entries ==> e.1 != NegInfinity
    ensures MaxEntry(entries) in entries
  {
    MaxEntryEarliest(entries);
    assert entries[0] in entries;
  }
}
