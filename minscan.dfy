/** The two running-minimum loops every part of the program repeats.

    A loop starts from the largest double (`DBL_MAX`, `numeric_limits::max()`),
    which is modelled as `None`: "no candidate yet". A candidate replaces the
    current value only when it is strictly below it (`d < distance`); a real is
    below `None`, and a candidate that is itself the sentinel is below nothing.

    `RunningMin` is the metric loop (keep only the value), `Scan` the closest-site
    loop (keep the index of the value too). Both are written as folds over a
    growing prefix, the order in which the loops visit their inputs. */
module MinScan {
  import opened Wrappers

  /** `d < distance` with `None` standing for the largest double. */
  predicate Below(d: Option<real>, acc: Option<real>)
  {
    d.Some? && (acc.None? || d.value < acc.value)
  }

  /** The value left in `distance` after the loop over `ds`. */
  function RunningMin(ds: seq<real>): (m: Option<real>)
  {
    if ds == [] then None
    else
      var acc := RunningMin(ds[..|ds| - 1]);
      var d := ds[|ds| - 1];
      if Below(Some(d), acc) then Some(d) else acc
  }

  /** `m` is the least element of `ds`. */
  predicate IsMin(ds: seq<real>, m: real)
  {
    (exists i :: 0 <= i < |ds| && ds[i] == m) && forall i :: 0 <= i < |ds| ==> m <= ds[i]
  }

  /** The loop yields "no value" exactly on an empty input, and otherwise the least
      element. */
  lemma {:induction false} RunningMinIsMin(ds: seq<real>)
    ensures RunningMin(ds).None? <==> ds == []
    ensures RunningMin(ds).Some? ==> IsMin(ds, RunningMin(ds).value)
  {
    if ds != [] {
      var init := ds[..|ds| - 1];
      RunningMinIsMin(init);
      var m := RunningMin(ds).value;
      if init == [] {
        assert ds[0] == m;
      } else {
        var k :| 0 <= k < |init| && init[k] == RunningMin(init).value;
        if m == ds[|ds| - 1] {
          assert ds[|ds| - 1] == m;
        } else {
          assert ds[k] == m;
        }
        forall i | 0 <= i < |ds| ensures m <= ds[i] {
          if i < |init| { assert ds[i] == init[i]; }
        }
      }
    }
  }

  /** The minimum of a concatenation is the smaller of the two minima, preferring
      the first part on a tie (the order the loop keeps). */
  lemma {:induction false} RunningMinAppend(ds: seq<real>, es: seq<real>)
    ensures RunningMin(ds + es) ==
      (var a := RunningMin(ds); var b := RunningMin(es);
       if Below(b, a) then b else a)
  {
    if es == [] {
      assert ds + es == ds;
    } else {
      var e := es[|es| - 1];
      var init := es[..|es| - 1];
      assert (ds + es)[..|ds + es| - 1] == ds + init;
      assert (ds + es)[|ds + es| - 1] == e;
      RunningMinAppend(ds, init);
    }
  }

  /** What the closest-site loop keeps: an index (-1 for none) and its value. */
  datatype Pick = Pick(site: int, dist: Option<real>)

  /** The value of `(site, distance)` after the loop over the metric values `vs`. */
  function Scan(vs: seq<Option<real>>): (p: Pick)
  {
    if vs == [] then Pick(-1, None)
    else
      var prev := Scan(vs[..|vs| - 1]);
      var v := vs[|vs| - 1];
      if Below(v, prev.dist) then Pick(|vs| - 1, v) else prev
  }

  /** `k` holds the least defined value of `vs`, and no earlier index holds a
      value that is equal or smaller. */
  predicate IsFirstArgMin(vs: seq<Option<real>>, k: int)
  {
    0 <= k < |vs| && vs[k].Some? &&
    (forall j :: 0 <= j < |vs| && vs[j].Some? ==> vs[k].value <= vs[j].value) &&
    (forall j :: 0 <= j < k && vs[j].Some? ==> vs[k].value < vs[j].value)
  }

  /** The loop returns -1 exactly when no value is defined, and otherwise the first
      index of the least value, keeping that value as its distance. */
  lemma {:induction false} ScanIsFirstArgMin(vs: seq<Option<real>>)
    ensures Scan(vs).site == -1 <==> forall j :: 0 <= j < |vs| ==> vs[j].None?
    ensures Scan(vs).site != -1 ==> IsFirstArgMin(vs, Scan(vs).site) && Scan(vs).dist == vs[Scan(vs).site]
    ensures Scan(vs).site == -1 ==> Scan(vs).dist.None?
  {
    if vs != [] {
      var init := vs[..|vs| - 1];
      ScanIsFirstArgMin(init);
      var v := vs[|vs| - 1];
      var prev := Scan(init);
      assert forall j :: 0 <= j < |init| ==> vs[j] == init[j];
      if Below(v, prev.dist) {
        if prev.site != -1 {
          assert IsFirstArgMin(init, prev.site);
        }
      }
    }
  }

  /** The first minimum is unique, so `IsFirstArgMin` determines the answer. */
  lemma FirstArgMinUnique(vs: seq<Option<real>>, k1: int, k2: int)
    requires IsFirstArgMin(vs, k1) && IsFirstArgMin(vs, k2)
    ensures k1 == k2
  {
  }

  /** A scan over one value picks index 0 when it is defined, and -1 otherwise. */
  lemma ScanOne(vs: seq<Option<real>>)
    requires |vs| == 1
    ensures Scan(vs).site == if vs[0].Some? then 0 else -1
  {
    assert vs[..0] == [];
  }
}
