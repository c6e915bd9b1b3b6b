/** The category table: seeded with the default list when the file is missing,
    grown one stripped, non-blank, new name at a time. */
module Categories {
  import opened Sequences
  import Text

  /** DEFAULT_CATEGORIES */
  const DefaultCategories: seq<string> := ["Food", "Shopping", "Travel", "Rent", "Entertainment", "Others"]

  /** The default list names every category once. */
  lemma DefaultsDistinct()
    ensures Distinct(DefaultCategories)
  {
  }

  /** Adding a name not yet present keeps names unique. */
  lemma AppendNewDistinct(names: seq<string>, name: string)
    requires Distinct(names) && name !in names
    ensures Distinct(names + [name])
  {
    var t := names + [name];
    forall i, j | 0 <= i < j < |t| ensures t[i] != t[j] {
      assert t[i] == names[i];
      if j < |names| {
        assert t[j] == names[j];
      }
    }
  }

  /** The category file. */
  class CategoryStore {
    var present: bool
    var names: seq<string>

    constructor (present: bool, names: seq<string>)
      ensures this.present == present && this.names == names
    {
      this.present := present;
      this.names := names;
    }

    /** load_categories: a missing file is first written with the defaults. */
    method Load() returns (r: seq<string>)
      modifies this
      ensures present
      ensures names == (if old(present) then old(names) else DefaultCategories)
      ensures r == names
    {
      if !present {
        present := true;
        names := DefaultCategories;
      }
      r := names;
    }

    /** save_category: adds the stripped name when it is not blank and not yet
        listed, and reports whether it did. */
    method SaveCategory(cat: string) returns (added: bool)
      modifies this
      ensures present
      ensures var before := if old(present) then old(names) else DefaultCategories;
        var name := Text.Strip(cat);
        (added <==> name != [] && name !in before) &&
        names == (if added then before + [name] else before)
      ensures Distinct(if old(present) then old(names) else DefaultCategories) ==> Distinct(names)
    {
      var before := Load();
      var name := Text.Strip(cat);
      added := name != [] && name !in before;
      if added {
        names := before + [name];
        if Distinct(before) {
          AppendNewDistinct(before, name);
        }
      }
    }
  }
}
