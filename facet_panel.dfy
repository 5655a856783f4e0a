/**
 * One filter panel of the search page (seiten/seite2.py): a master checkbox "select all"
 * and one checkbox per filter option, kept in the session state. Genres and countries
 * keep the master in step with the options (on_change=update_master_*); the rating
 * panel's option checkboxes have no such callback.
 */
module FacetPanels {

  /** The options that are checked, in option order (the `selected_*` list built checkbox by checkbox). */
  function CheckedOptions<T>(options: seq<T>, checked: map<T, bool>): seq<T>
    requires forall f :: f in options ==> f in checked
  {
    if options == [] then []
    else
      var n := |options| - 1;
      CheckedOptions(options[..n], checked) + (if checked[options[n]] then [options[n]] else [])
  }

  /** Exactly the checked options are selected. */
  lemma {:induction false} CheckedOptionsMembers<T>(options: seq<T>, checked: map<T, bool>)
    requires forall f :: f in options ==> f in checked
    ensures forall f :: f in CheckedOptions(options, checked) <==> f in options && checked[f]
  {
    if options != [] {
      var n := |options| - 1;
      var init := options[..n];
      CheckedOptionsMembers(init, checked);
      assert options == init + [options[n]];
      var tail := if checked[options[n]] then [options[n]] else [];
      assert CheckedOptions(options, checked) == CheckedOptions(init, checked) + tail;
      forall f ensures f in CheckedOptions(options, checked) <==> f in options && checked[f] {
        assert f in options <==> f in init || f == options[n];
      }
    }
  }

  class FacetPanel<T(==)> {
    const options: seq<T>
    /** Whether clicking an option re-computes the master checkbox. */
    const syncsMaster: bool
    var checked: map<T, bool>
    var master: bool

    ghost predicate Valid()
      reads this
    {
      forall f :: f in options ==> f in checked
    }

    /** `all(...)` over the option checkboxes. */
    predicate AllChecked()
      reads this
      requires Valid()
    {
      forall f :: f in options ==> checked[f]
    }

    /** The master checkbox agrees with the options whenever the panel keeps it in step. */
    ghost predicate Synced()
      reads this
      requires Valid()
    {
      syncsMaster && options != [] ==> (master <==> AllChecked())
    }

    /** The first run: master and every option unchecked. */
    constructor (options: seq<T>, syncsMaster: bool)
      ensures Valid() && Synced()
      ensures this.options == options && this.syncsMaster == syncsMaster
      ensures !master && checked.Keys == set f | f in options
      ensures forall f :: f in options ==> !checked[f]
    {
      this.options := options;
      this.syncsMaster := syncsMaster;
      checked := map f | f in options :: false;
      master := false;
      new;
      assert options != [] ==> options[0] in options;
    }

    /** toggle_all_*: every option takes the master's value; other session keys are untouched. */
    method ToggleAll()
      requires Valid()
      modifies this
      ensures Valid() && master == old(master)
      ensures checked.Keys == old(checked).Keys
      ensures forall f :: f in options ==> checked[f] == master
      ensures forall f :: f in checked && f !in options ==> checked[f] == old(checked)[f]
    {
      var i := 0;
      while i < |options|
        invariant 0 <= i <= |options|
        invariant Valid() && master == old(master) && checked.Keys == old(checked).Keys
        invariant forall k :: 0 <= k < i ==> checked[options[k]] == master
        invariant forall f :: f in checked && f !in options[..i] ==> checked[f] == old(checked)[f]
      {
        checked := checked[options[i] := master];
        i := i + 1;
      }
      assert options[..|options|] == options;
      forall f | f in options ensures checked[f] == master {
        var k :| 0 <= k < |options| && options[k] == f;
      }
    }

    /** update_master_*: the master becomes `all` of the option checkboxes. */
    method UpdateMaster()
      requires Valid()
      modifies this`master
      ensures master == AllChecked()
    {
      var allChecked := true;
      var i := 0;
      while i < |options|
        invariant 0 <= i <= |options|
        invariant allChecked == forall k :: 0 <= k < i ==> checked[options[k]]
      {
        if !checked[options[i]] {
          allChecked := false;
          break;
        }
        i := i + 1;
      }
      if allChecked {
        assert i == |options|;
        forall f | f in options ensures checked[f] {
          var k :| 0 <= k < |options| && options[k] == f;
        }
      } else {
        assert exists k :: 0 <= k < |options| && !checked[options[k]];
        var k :| 0 <= k < |options| && !checked[options[k]];
        assert options[k] in options;
      }
      master := allChecked;
    }

    /** A click on the master checkbox: it flips, then every option follows it. */
    method ClickMaster()
      requires Valid()
      modifies this
      ensures Valid() && Synced()
      ensures master == !old(master) && checked.Keys == old(checked).Keys
      ensures forall f :: f in options ==> checked[f] == master
      ensures forall f :: f in checked && f !in options ==> checked[f] == old(checked)[f]
    {
      master := !master;
      ToggleAll();
      assert options != [] ==> options[0] in options;
    }

    /** A click on one option: it flips, and a synced panel recomputes its master. */
    method ClickOption(f: T)
      requires Valid() && f in options
      modifies this
      ensures Valid()
      ensures checked == old(checked)[f := !old(checked)[f]]
      ensures syncsMaster ==> master == AllChecked()
      ensures !syncsMaster ==> master == old(master)
      ensures Synced()
    {
      checked := checked[f := !checked[f]];
      if syncsMaster {
        UpdateMaster();
      }
    }

    /** The `selected_*` list: the checked options, appended in option order. */
    method Selected() returns (selected: seq<T>)
      requires Valid()
      ensures selected == CheckedOptions(options, checked)
    {
      selected := [];
      for i := 0 to |options|
        invariant selected == CheckedOptions(options[..i], checked)
      {
        if checked[options[i]] {
          selected := selected + [options[i]];
        }
        assert options[..i + 1][..i] == options[..i];
      }
      assert options[..|options|] == options;
    }
  }
}
