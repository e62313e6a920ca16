/** The multi-source selector: toggling an option's value in the selected
    list, the trigger label, and the check marks. */
module SourceSelector {
  import opened Seqs
  import opened Text

  /** `toggleValue(val)`: the list handed to `onChange`. The toggled value
      is selected afterwards exactly when it was not before; every other
      value stays as selected as it was, as often as it was. */
  function Toggle(value: seq<string>, val: string): (r: seq<string>)
    ensures val in r <==> val !in value
    ensures forall x :: x != val ==> multiset(r)[x] == multiset(value)[x]
  {
    if val in value then Without(value, val)
    else
      assert val in value + [val];
      value + [val]
  }

  /** An option's check mark is visible exactly when its value is selected. */
  predicate Checked(value: seq<string>, option: string) {
    option in value
  }

  /** Toggling flips the check mark of that option and of no other, and keeps
      a list without duplicates without duplicates. */
  lemma ToggleFlips(value: seq<string>, val: string, other: string)
    ensures Checked(Toggle(value, val), val) <==> !Checked(value, val)
    ensures other != val ==> (Checked(Toggle(value, val), other) <==> Checked(value, other))
    ensures NoDups(value) ==> NoDups(Toggle(value, val))
  {
    if val in value {
      assert other in Without(value, val) <==> multiset(Without(value, val))[other] > 0;
      assert other in value <==> multiset(value)[other] > 0;
      if NoDups(value) {
        WithoutNoDups(value, val);
      }
    }
  }

  /** Toggling an unselected value twice gives back the original list. */
  lemma ToggleTwice(value: seq<string>, val: string)
    requires val !in value
    ensures Toggle(Toggle(value, val), val) == value
  {
    assert val in value + [val];
    WithoutConcat(value, [val], val);
    WithoutAbsent(value, val);
    assert Without([val], val) == [];
  }

  /** Toggling a selected value off keeps the other selected values in order;
      toggling an unselected one on adds it after them. */
  lemma ToggleOrder(value: seq<string>, val: string, i: nat)
    requires i <= |value|
    ensures val in value ==>
      Toggle(value, val) == Without(value[..i], val) + Without(value[i..], val)
    ensures val !in value ==> Toggle(value, val)[..|value|] == value && Toggle(value, val)[|value|] == val
  {
    assert value == value[..i] + value[i..];
    WithoutConcat(value[..i], value[i..], val);
  }

  /** The trigger text: "Select sources" exactly when nothing is selected. */
  function TriggerLabel(value: seq<string>): (r: string)
    ensures r == "Select sources" <==> value == []
  {
    if |value| > 0 then
      var r := IntToString(|value|) + " selected";
      assert r[|r| - 1] == 'd';
      r
    else "Select sources"
  }

  /** The label tells the number of selected sources apart: equal labels mean
      equally many, and "Select sources" means none. */
  lemma TriggerLabelInjective(a: seq<string>, b: seq<string>)
    requires TriggerLabel(a) == TriggerLabel(b)
    ensures |a| == |b|
    ensures TriggerLabel(a) == "Select sources" <==> a == []
  {
    var l := TriggerLabel(a);
    if |a| > 0 {
      assert l[|l| - 1] == 'd';
    }
    if |b| > 0 {
      assert TriggerLabel(b)[|l| - 1] == 'd';
    }
    if |a| > 0 && |b| > 0 {
      assert IntToString(|a|) == l[..|l| - 9];
      assert IntToString(|b|) == TriggerLabel(b)[..|l| - 9];
      IntToStringInjective(|a|, |b|);
    }
  }
}
