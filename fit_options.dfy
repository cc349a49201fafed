/** The fit-mode table behind the dropdown and the lookup that selects the stored mode when the
    window opens. */
module FitOptions {
  import opened Wrappers
  import SettingsText

  /** Dropdown name and backend value, in dropdown order. The 'Original Size'
      entry (value 'none') is commented out in the table. */
  const Options: seq<(string, string)> := [
    ("Tiled", "wallpaper"),
    ("Centered", "centered"),
    ("Scaled (Fit)", "scaled"),
    ("Zoom (Fill)", "zoom"),
    ("Spanned", "spanned")
  ]

  predicate DistinctValues(options: seq<(string, string)>)
  {
    forall i, j | 0 <= i < j < |options| :: options[i].1 != options[j].1
  }

  predicate DistinctLabels(options: seq<(string, string)>)
  {
    forall i, j | 0 <= i < j < |options| :: options[i].0 != options[j].0
  }

  /** Labels and values are pairwise distinct: name -> value is injective, and a dictionary. */
  lemma OptionsDistinct()
    ensures DistinctValues(Options) && DistinctLabels(Options)
  {
  }

  /** 'none' is not offered, so the preview branch for it cannot be reached from the dropdown. */
  lemma NoneNotOffered()
    ensures forall i | 0 <= i < |Options| :: Options[i].1 != "none"
  {
  }

  /** The index of the first entry whose value is `v`, if any. */
  function IndexOfValue(options: seq<(string, string)>, v: string): (r: Option<nat>)
    ensures r.Some? ==> r.value < |options| && options[r.value].1 == v
    ensures r.Some? ==> forall k | 0 <= k < r.value :: options[k].1 != v
    ensures r.None? ==> forall k | 0 <= k < |options| :: options[k].1 != v
  {
    if options == [] then None
    else if options[0].1 == v then Some(0)
    else match IndexOfValue(options[1..], v)
      case None => None
      case Some(i) => Some(i + 1)
  }

  /** The value of the dropdown name, as a dictionary lookup, when drawing and when applying. */
  function ValueOfLabel(options: seq<(string, string)>, name: string): (r: Option<string>)
    ensures r.None? ==> forall k | 0 <= k < |options| :: options[k].0 != name
    ensures r.Some? ==> exists k | 0 <= k < |options| :: options[k].0 == name && options[k].1 == r.value
  {
    if options == [] then None
    else if options[0].0 == name then Some(options[0].1)
    else
      var r := ValueOfLabel(options[1..], name);
      assert r.Some? ==> exists k | 0 <= k < |options| :: options[k].0 == name && options[k].1 == r.value by {
        if r.Some? {
          var k :| 0 <= k < |options[1..]| && options[1..][k].0 == name && options[1..][k].1 == r.value;
          assert options[k + 1] == options[1..][k];
        }
      }
      r
  }

  /** With distinct values, the lookup of an entry's value finds that entry and no other. */
  lemma LookupFindsOnlyEntry(options: seq<(string, string)>, i: nat)
    requires DistinctValues(options) && i < |options|
    ensures IndexOfValue(options, options[i].1) == Some(i)
  {
    var r := IndexOfValue(options, options[i].1);
    assert r.Some?;
  }

  /** Every name of the table looks up its own value. */
  lemma LabelLooksUpItsValue(i: nat)
    requires i < |Options|
    ensures ValueOfLabel(Options, Options[i].0) == Some(Options[i].1)
  {
    OptionsDistinct();
    var r := ValueOfLabel(Options, Options[i].0);
    var k :| 0 <= k < |Options| && Options[k].0 == Options[i].0 && Options[k].1 == r.value;
  }

  /** At start-up, select the first entry whose value is the stored one; an unknown value
      leaves the current selection as it is. */
  method SelectStored(options: seq<(string, string)>, current: string, selected: nat) returns (sel: nat)
    ensures sel == match IndexOfValue(options, current)
      case Some(i) => i
      case None => selected
  {
    sel := selected;
    var i := 0;
    while i < |options|
      invariant 0 <= i <= |options| && sel == selected
      invariant forall k | 0 <= k < i :: options[k].1 != current
    {
      if options[i].1 == current {
        sel := i;
        break;
      }
      i := i + 1;
    }
  }

  /** A mode written by Apply and printed back by the settings store on the next start selects
      the same dropdown entry again. */
  lemma ReloadSelectsApplied(sel: nat)
    requires sel < |Options|
    ensures IndexOfValue(Options, SettingsText.StoredValue(SettingsText.Printed(Options[sel].1))) == Some(sel)
  {
    assert '\'' !in Options[sel].1;
    SettingsText.StoredValueOfPrinted(Options[sel].1);
    OptionsDistinct();
    LookupFindsOnlyEntry(Options, sel);
  }
}
