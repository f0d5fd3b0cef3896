/** `pivot_order`: the mean travel time per street (and per date, for the
    daily types) and direction, with the streets put in the tab's canonical
    order; streets the tab does not list lose their label and come last. */
module Pivot {
  import opened Common
  import opened Calendar

  /** One observation fed to the pivot: its street, its row key (the date
      when the pivot is indexed by street and date, None when by street
      only), its direction (the column) and its travel time. */
  datatype Obs = Obs(street: string, key: Option<Date>, direction: string, tt: real)

  /** One row of the pivoted frame. `street` is the grouped value,
      `streetLabel` what is left of it once the column becomes a category over the tab's
      streets (None is pandas' NaN). A direction missing from `cells` but
      present among the frame's columns is a NaN cell. */
  datatype PivotRow = PivotRow(street: string, streetLabel: Option<string>, key: Option<Date>, cells: map<string, real>)

  datatype Pivot = Pivot(columns: set<string>, rows: seq<PivotRow>)

  // ---------------------------------------------------------------------
  // Mean

  function Sum(xs: seq<real>): real {
    if |xs| == 0 then 0.0 else xs[0] + Sum(xs[1..])
  }

  function SeqMin(xs: seq<real>): (m: real)
    requires |xs| > 0
    ensures m in xs && forall i :: 0 <= i < |xs| ==> m <= xs[i]
  {
    if |xs| == 1 then xs[0]
    else
      var rest := SeqMin(xs[1..]);
      assert forall i :: 1 <= i < |xs| ==> xs[i] == xs[1..][i - 1];
      if rest < xs[0] then rest else xs[0]
  }

  function SeqMax(xs: seq<real>): (m: real)
    requires |xs| > 0
    ensures m in xs && forall i :: 0 <= i < |xs| ==> xs[i] <= m
  {
    if |xs| == 1 then xs[0]
    else
      var rest := SeqMax(xs[1..]);
      assert forall i :: 1 <= i < |xs| ==> xs[i] == xs[1..][i - 1];
      if xs[0] < rest then rest else xs[0]
  }

  lemma {:induction false} SumBounds(xs: seq<real>, lo: real, hi: real)
    requires forall i :: 0 <= i < |xs| ==> lo <= xs[i] <= hi
    ensures |xs| as real * lo <= Sum(xs) <= |xs| as real * hi
    decreases |xs|
  {
    if |xs| > 0 {
      assert forall i :: 0 <= i < |xs[1..]| ==> xs[1..][i] == xs[i + 1];
      SumBounds(xs[1..], lo, hi);
    }
  }

  /** `k` copies of `m` added up. */
  function Times(m: real, k: nat): real {
    if k == 0 then 0.0 else m + Times(m, k - 1)
  }

  lemma {:induction false} TimesIsProduct(m: real, k: nat)
    ensures Times(m, k) == m * (k as real)
  {
    if k > 0 {
      TimesIsProduct(m, k - 1);
    }
  }

  /** The `mean` aggregation of `pivot_table`: the value that, counted once
      per element, makes up the group's total; so never below the smallest
      value nor above the largest. */
  function Mean(xs: seq<real>): (m: real)
    requires |xs| > 0
    ensures Times(m, |xs|) == Sum(xs)
    ensures SeqMin(xs) <= m <= SeqMax(xs)
  {
    var m := Sum(xs) / |xs| as real;
    MeanTotal(xs, m);
    MeanWithin(xs, SeqMin(xs), SeqMax(xs), m);
    m
  }

  lemma MeanTotal(xs: seq<real>, m: real)
    requires |xs| > 0 && m == Sum(xs) / |xs| as real
    ensures Times(m, |xs|) == Sum(xs)
  {
    QuotientTimes(m, Sum(xs), |xs| as real);
    TimesIsProduct(m, |xs|);
  }

  /** The mean of equal values is that value. */
  lemma MeanOfEqualValues(xs: seq<real>)
    requires |xs| > 0 && forall i :: 0 <= i < |xs| ==> xs[i] == xs[0]
    ensures Mean(xs) == xs[0]
  {
    MeanWithin(xs, xs[0], xs[0], Mean(xs));
  }

  lemma QuotientTimes(q: real, t: real, n: real)
    requires n > 0.0 && q == t / n
    ensures q * n == t
  {
  }

  /** A value that makes up the total lies within any bounds of the values. */
  lemma MeanWithin(xs: seq<real>, lo: real, hi: real, m: real)
    requires |xs| > 0
    requires forall i :: 0 <= i < |xs| ==> lo <= xs[i] <= hi
    requires Times(m, |xs|) == Sum(xs)
    ensures lo <= m <= hi
  {
    TimesIsProduct(m, |xs|);
    SumBounds(xs, lo, hi);
    ScaledBounds(m, |xs| as real, Sum(xs), lo, hi);
  }

  lemma ScaledBounds(m: real, n: real, total: real, lo: real, hi: real)
    requires n > 0.0 && n * lo <= total <= n * hi && m * n == total
    ensures lo <= m <= hi
  {
  }

  // ---------------------------------------------------------------------
  // Groups

  /** The travel times of one (street, key, direction) group, in row order. */
  function TtsOf(obs: seq<Obs>, street: string, key: Option<Date>, direction: string): (r: seq<real>)
    ensures |r| > 0 <==> exists x :: x in obs && x.street == street && x.key == key && x.direction == direction
    ensures |r| <= |obs|
  {
    if |obs| == 0 then []
    else
      var rest := TtsOf(obs[1..], street, key, direction);
      assert forall x :: x in obs <==> x == obs[0] || x in obs[1..];
      if obs[0].street == street && obs[0].key == key && obs[0].direction == direction then [obs[0].tt] + rest else rest
  }

  /** The frame's columns: every direction some row has. */
  function DirectionsOf(obs: seq<Obs>): set<string> {
    set x | x in obs :: x.direction
  }

  /** The cells of the (street, key) row: a mean for each direction the
      group has, and no entry (NaN) for the others. */
  function CellsOf(obs: seq<Obs>, street: string, key: Option<Date>): (cells: map<string, real>)
    ensures forall d :: d in cells <==> exists x :: x in obs && x.street == street && x.key == key && x.direction == d
    ensures forall d :: d in cells ==>
              SeqMin(TtsOf(obs, street, key, d)) <= cells[d] <= SeqMax(TtsOf(obs, street, key, d))
  {
    map d | d in DirectionsOf(obs) && |TtsOf(obs, street, key, d)| > 0 :: Mean(TtsOf(obs, street, key, d))
  }

  // ---------------------------------------------------------------------
  // Keys of a street, ascending

  /** The strict order of row keys: the dates' order (a street-indexed
      pivot has the single key None). */
  predicate KeyBefore(a: Option<Date>, b: Option<Date>) {
    (a.None? && b.Some?) || (a.Some? && b.Some? && Before(a.value, b.value))
  }

  predicate StrictlySorted(ks: seq<Option<Date>>) {
    forall i, j :: 0 <= i < j < |ks| ==> KeyBefore(ks[i], ks[j])
  }

  /** The first occurrence of each element, in order. */
  function Dedup<T(==,!new)>(s: seq<T>): (r: seq<T>)
    ensures NoDuplicates(r)
    ensures forall x :: x in r <==> x in s
    decreases |s|
  {
    if |s| == 0 then []
    else
      var rest := Dedup(Filter(s[1..], x => x != s[0]));
      assert forall x :: x in s <==> x == s[0] || x in s[1..];
      assert forall j :: 0 <= j < |rest| ==> rest[j] in rest && rest[j] != s[0];
      [s[0]] + rest
  }

  /** The keys of a street's observations, in row order. */
  function StreetKeys(obs: seq<Obs>, street: string): (ks: seq<Option<Date>>)
    ensures forall k :: k in ks <==> exists x :: x in obs && x.street == street && x.key == k
  {
    if |obs| == 0 then []
    else
      assert forall x :: x in obs <==> x == obs[0] || x in obs[1..];
      (if obs[0].street == street then [obs[0].key] else []) + StreetKeys(obs[1..], street)
  }

  /** The distinct keys of a street's observations. */
  function KeysOf(obs: seq<Obs>, street: string): (ks: seq<Option<Date>>)
    ensures NoDuplicates(ks)
    ensures forall k :: k in ks <==> exists x :: x in obs && x.street == street && x.key == k
  {
    Dedup(StreetKeys(obs, street))
  }

  /** Insert a key into an ascending list of keys. */
  function Insert(k: Option<Date>, s: seq<Option<Date>>): (r: seq<Option<Date>>)
    requires StrictlySorted(s) && k !in s
    ensures StrictlySorted(r)
    ensures forall x :: x in r <==> x == k || x in s
    ensures |r| == |s| + 1
  {
    if |s| == 0 then [k]
    else if KeyBefore(k, s[0]) then
      KeyBeforeTransitive(k, s);
      [k] + s
    else
      assert forall x :: x in s <==> x == s[0] || x in s[1..];
      var rest := Insert(k, s[1..]);
      KeyBeforeTotal(k, s[0]);
      assert forall x :: x in s[1..] ==> KeyBefore(s[0], x);
      assert forall j :: 0 <= j < |rest| ==> rest[j] in rest && KeyBefore(s[0], rest[j]);
      [s[0]] + rest
  }

  lemma KeyBeforeTotal(a: Option<Date>, b: Option<Date>)
    ensures a == b || KeyBefore(a, b) || KeyBefore(b, a)
  {
  }

  lemma KeyBeforeTransitive(k: Option<Date>, s: seq<Option<Date>>)
    requires StrictlySorted(s) && |s| > 0 && KeyBefore(k, s[0])
    ensures forall x :: x in s ==> KeyBefore(k, x)
  {
  }

  /** The keys in ascending order (pandas sorts the group keys). */
  function SortKeys(ks: seq<Option<Date>>): (r: seq<Option<Date>>)
    requires NoDuplicates(ks)
    ensures StrictlySorted(r)
    ensures forall x :: x in r <==> x in ks
    ensures |r| == |ks|
  {
    if |ks| == 0 then []
    else
      assert forall x :: x in ks <==> x == ks[0] || x in ks[1..];
      Insert(ks[0], SortKeys(ks[1..]))
  }

  // ---------------------------------------------------------------------
  // Rows

  /** The row order within a block of streets: by the street's position in
      `streets`, then by key. */
  predicate RowBefore(streets: seq<string>, a: PivotRow, b: PivotRow) {
    && a.street in streets && b.street in streets
    && (IndexOf(streets, a.street) < IndexOf(streets, b.street)
        || (a.street == b.street && KeyBefore(a.key, b.key)))
  }

  /** A row that is the (street, key) group of some observation, with that
      group's means. */
  predicate IsGroupRow(obs: seq<Obs>, r: PivotRow) {
    && (exists x :: x in obs && x.street == r.street && x.key == r.key)
    && r.cells == CellsOf(obs, r.street, r.key)
  }

  /** Every row is a group of one of `streets`, labelled as the block says. */
  predicate RowsOfBlock(obs: seq<Obs>, streets: seq<string>, listed: bool, rows: seq<PivotRow>) {
    forall i :: 0 <= i < |rows| ==>
      rows[i].street in streets && rows[i].streetLabel == Label(rows[i].street, listed) && IsGroupRow(obs, rows[i])
  }

  /** Every group of one of `streets` has a row. */
  predicate CoversBlock(obs: seq<Obs>, streets: seq<string>, rows: seq<PivotRow>) {
    forall x :: x in obs && x.street in streets ==>
      exists i :: 0 <= i < |rows| && rows[i].street == x.street && rows[i].key == x.key
  }

  predicate SortedBlock(streets: seq<string>, rows: seq<PivotRow>) {
    forall i, j :: 0 <= i < j < |rows| ==> RowBefore(streets, rows[i], rows[j])
  }

  /** The rows of one street, keys ascending. */
  function StreetRows(obs: seq<Obs>, street: string, listed: bool): (rows: seq<PivotRow>)
    ensures RowsOfBlock(obs, [street], listed, rows)
    ensures CoversBlock(obs, [street], rows)
    ensures forall i, j :: 0 <= i < j < |rows| ==> KeyBefore(rows[i].key, rows[j].key)
  {
    var ks := SortKeys(KeysOf(obs, street));
    var rows := KeyRows(obs, street, listed, ks);
    KeyRowsAreGroups(obs, street, listed, ks);
    KeyRowsCover(obs, street, listed, ks);
    rows
  }

  /** One row per key, in the keys' order. */
  function KeyRows(obs: seq<Obs>, street: string, listed: bool, ks: seq<Option<Date>>): (rows: seq<PivotRow>)
    ensures |rows| == |ks|
    ensures forall i :: 0 <= i < |ks| ==> rows[i].key == ks[i]
  {
    seq(|ks|, i requires 0 <= i < |ks| => PivotRow(street, Label(street, listed), ks[i], CellsOf(obs, street, ks[i])))
  }

  lemma KeyRowsAreGroups(obs: seq<Obs>, street: string, listed: bool, ks: seq<Option<Date>>)
    requires forall k :: k in ks ==> exists x :: x in obs && x.street == street && x.key == k
    ensures RowsOfBlock(obs, [street], listed, KeyRows(obs, street, listed, ks))
  {
    var rows := KeyRows(obs, street, listed, ks);
    forall i | 0 <= i < |rows|
      ensures rows[i].street in [street] && rows[i].streetLabel == Label(rows[i].street, listed) && IsGroupRow(obs, rows[i])
    {
      assert ks[i] in ks;
    }
  }

  lemma KeyRowsCover(obs: seq<Obs>, street: string, listed: bool, ks: seq<Option<Date>>)
    requires forall x :: x in obs && x.street == street ==> x.key in ks
    ensures CoversBlock(obs, [street], KeyRows(obs, street, listed, ks))
  {
    var rows := KeyRows(obs, street, listed, ks);
    forall x | x in obs && x.street in [street]
      ensures exists i :: 0 <= i < |rows| && rows[i].street == x.street && rows[i].key == x.key
    {
      var i :| 0 <= i < |ks| && ks[i] == x.key;
      assert rows[i].street == street;
    }
  }

  /** The label a street keeps in a block: itself for the tab's streets,
      NaN for the others. */
  function Label(street: string, listed: bool): Option<string> {
    if listed then Some(street) else None
  }

  /** The rows of a block of streets, street by street. */
  function BlockRows(obs: seq<Obs>, streets: seq<string>, listed: bool): (rows: seq<PivotRow>)
    requires NoDuplicates(streets)
    ensures RowsOfBlock(obs, streets, listed, rows)
    ensures CoversBlock(obs, streets, rows)
    ensures SortedBlock(streets, rows)
    decreases |streets|
  {
    if |streets| == 0 then []
    else
      var head := StreetRows(obs, streets[0], listed);
      var tail := BlockRows(obs, streets[1..], listed);
      JoinRows(obs, streets, listed, head, tail);
      JoinCovers(obs, streets, head, tail);
      JoinSorted(obs, streets, listed, head, tail);
      head + tail
  }

  lemma JoinRows(obs: seq<Obs>, streets: seq<string>, listed: bool, head: seq<PivotRow>, tail: seq<PivotRow>)
    requires |streets| > 0
    requires RowsOfBlock(obs, [streets[0]], listed, head) && RowsOfBlock(obs, streets[1..], listed, tail)
    ensures RowsOfBlock(obs, streets, listed, head + tail)
  {
    var rows := head + tail;
    forall i | 0 <= i < |rows|
      ensures rows[i].street in streets && rows[i].streetLabel == Label(rows[i].street, listed) && IsGroupRow(obs, rows[i])
    {
      if i < |head| {
        assert rows[i] == head[i];
      } else {
        assert rows[i] == tail[i - |head|];
      }
    }
  }

  lemma JoinCovers(obs: seq<Obs>, streets: seq<string>, head: seq<PivotRow>, tail: seq<PivotRow>)
    requires |streets| > 0
    requires CoversBlock(obs, [streets[0]], head) && CoversBlock(obs, streets[1..], tail)
    ensures CoversBlock(obs, streets, head + tail)
  {
    var rows := head + tail;
    forall x | x in obs && x.street in streets
      ensures exists i :: 0 <= i < |rows| && rows[i].street == x.street && rows[i].key == x.key
    {
      if x.street == streets[0] {
        assert x.street in [streets[0]];
        var i :| 0 <= i < |head| && head[i].street == x.street && head[i].key == x.key;
        assert rows[i] == head[i];
      } else {
        assert x.street in streets[1..];
        var i :| 0 <= i < |tail| && tail[i].street == x.street && tail[i].key == x.key;
        assert rows[|head| + i] == tail[i];
      }
    }
  }

  lemma JoinSorted(obs: seq<Obs>, streets: seq<string>, listed: bool, head: seq<PivotRow>, tail: seq<PivotRow>)
    requires |streets| > 0 && NoDuplicates(streets)
    requires RowsOfBlock(obs, [streets[0]], listed, head) && RowsOfBlock(obs, streets[1..], listed, tail)
    requires forall i, j :: 0 <= i < j < |head| ==> KeyBefore(head[i].key, head[j].key)
    requires SortedBlock(streets[1..], tail)
    ensures SortedBlock(streets, head + tail)
  {
    var rows := head + tail;
    forall t | t in streets[1..] ensures t != streets[0] && IndexOf(streets, t) == 1 + IndexOf(streets[1..], t) {
      var k :| 0 <= k < |streets[1..]| && streets[1..][k] == t;
      assert streets[k + 1] == t;
    }
    forall i, j | 0 <= i < j < |rows| ensures RowBefore(streets, rows[i], rows[j]) {
      if j < |head| {
        assert rows[i] == head[i] && rows[j] == head[j];
        assert rows[i].street in [streets[0]] && rows[j].street in [streets[0]];
      } else if i < |head| {
        assert rows[i] == head[i] && rows[j] == tail[j - |head|];
        assert rows[i].street in [streets[0]];
        assert rows[j].street in streets[1..];
      } else {
        assert rows[i] == tail[i - |head|] && rows[j] == tail[j - |head|];
        assert RowBefore(streets[1..], tail[i - |head|], tail[j - |head|]);
      }
    }
  }

  /** The streets of the observations the tab does not list, in order of
      first appearance. */
  function Unlisted(obs: seq<Obs>, streets: seq<string>): (r: seq<string>)
    ensures NoDuplicates(r)
    ensures forall s :: s in r <==> s !in streets && exists x :: x in obs && x.street == s
  {
    var names := seq(|obs|, i requires 0 <= i < |obs| => obs[i].street);
    forall x | x in obs ensures x.street in names {
      var i :| 0 <= i < |obs| && obs[i] == x;
      assert names[i] == x.street;
    }
    Dedup(Filter(names, s => s !in streets))
  }

  /** The row order and labels `pivot_order` produces: a listed street is
      labelled with its name and an unlisted one with NaN; labelled rows come
      first, in the order of `streets` and then of their keys; no (street,
      key) group appears twice. */
  predicate Arranged(rows: seq<PivotRow>, streets: seq<string>) {
    && (forall i :: 0 <= i < |rows| ==> rows[i].streetLabel == Label(rows[i].street, rows[i].street in streets))
    && (forall i, j :: 0 <= i < j < |rows| && rows[j].streetLabel.Some? ==>
          rows[i].streetLabel.Some? && RowBefore(streets, rows[i], rows[j]))
    && (forall i, j :: 0 <= i < j < |rows| ==> (rows[i].street, rows[i].key) != (rows[j].street, rows[j].key))
  }

  /** `pivot_order`: every (street, key) group once, the tab's streets in
      their canonical order first, then the unlisted ones under a NaN label. */
  function PivotOrder(obs: seq<Obs>, streets: seq<string>): (p: Pivot)
    requires NoDuplicates(streets)
    ensures p.columns == DirectionsOf(obs)
    ensures forall i {:trigger IsGroupRow(obs, p.rows[i])} :: 0 <= i < |p.rows| ==> IsGroupRow(obs, p.rows[i])
    ensures forall x :: x in obs ==> exists i :: 0 <= i < |p.rows| && p.rows[i].street == x.street && p.rows[i].key == x.key
    ensures Arranged(p.rows, streets)
  {
    var unlisted := Unlisted(obs, streets);
    var listedRows := BlockRows(obs, streets, true);
    var unlistedRows := BlockRows(obs, unlisted, false);
    PivotRowsAreGroups(obs, streets, unlisted, listedRows, unlistedRows);
    PivotRowsCover(obs, streets, unlisted, listedRows, unlistedRows);
    PivotRowsOrdered(obs, streets, unlisted, listedRows, unlistedRows);
    PivotRowsDistinct(obs, streets, unlisted, listedRows, unlistedRows);
    Pivot(DirectionsOf(obs), listedRows + unlistedRows)
  }

  /** The (street, key) groups a pivot has rows for, and the groups its
      observations fall into. */
  function RowKeys(rows: seq<PivotRow>): set<(string, Option<Date>)> {
    set i | 0 <= i < |rows| :: (rows[i].street, rows[i].key)
  }

  function ObsKeys(obs: seq<Obs>): set<(string, Option<Date>)> {
    set x | x in obs :: (x.street, x.key)
  }

  /** The pivot has a row for exactly the groups of its observations. */
  lemma PivotKeys(obs: seq<Obs>, streets: seq<string>)
    requires NoDuplicates(streets)
    ensures RowKeys(PivotOrder(obs, streets).rows) == ObsKeys(obs)
  {
    var p := PivotOrder(obs, streets);
    forall g | g in RowKeys(p.rows) ensures g in ObsKeys(obs) {
      var i :| 0 <= i < |p.rows| && g == (p.rows[i].street, p.rows[i].key);
      assert IsGroupRow(obs, p.rows[i]);
      var x :| x in obs && x.street == p.rows[i].street && x.key == p.rows[i].key;
    }
    forall g | g in ObsKeys(obs) ensures g in RowKeys(p.rows) {
      var x :| x in obs && g == (x.street, x.key);
      var i :| 0 <= i < |p.rows| && p.rows[i].street == x.street && p.rows[i].key == x.key;
    }
  }

  /** Observations without a key give rows without a key. */
  lemma UndatedRows(obs: seq<Obs>, streets: seq<string>)
    requires NoDuplicates(streets)
    requires forall k :: 0 <= k < |obs| ==> obs[k].key == None
    ensures forall i :: 0 <= i < |PivotOrder(obs, streets).rows| ==> PivotOrder(obs, streets).rows[i].key == None
  {
    var rows := PivotOrder(obs, streets).rows;
    PivotKeys(obs, streets);
    forall i | 0 <= i < |rows| ensures rows[i].key == None {
      assert (rows[i].street, rows[i].key) in ObsKeys(obs);
    }
  }

  /** Observations that all carry a key give rows that all carry one. */
  lemma DatedRows(obs: seq<Obs>, streets: seq<string>)
    requires NoDuplicates(streets)
    requires forall k :: 0 <= k < |obs| ==> obs[k].key.Some?
    ensures forall i :: 0 <= i < |PivotOrder(obs, streets).rows| ==> PivotOrder(obs, streets).rows[i].key.Some?
  {
    var rows := PivotOrder(obs, streets).rows;
    PivotKeys(obs, streets);
    forall i | 0 <= i < |rows| ensures rows[i].key.Some? {
      assert (rows[i].street, rows[i].key) in ObsKeys(obs);
    }
  }

  lemma PivotRowsAreGroups(obs: seq<Obs>, streets: seq<string>, unlisted: seq<string>, listedRows: seq<PivotRow>, unlistedRows: seq<PivotRow>)
    requires forall s :: s in unlisted ==> s !in streets
    requires RowsOfBlock(obs, streets, true, listedRows) && RowsOfBlock(obs, unlisted, false, unlistedRows)
    ensures var rows := listedRows + unlistedRows;
      forall i :: 0 <= i < |rows| ==>
        IsGroupRow(obs, rows[i]) && rows[i].streetLabel == Label(rows[i].street, rows[i].street in streets)
  {
    var rows := listedRows + unlistedRows;
    var n := |listedRows|;
    forall i | 0 <= i < |rows|
      ensures IsGroupRow(obs, rows[i]) && rows[i].streetLabel == Label(rows[i].street, rows[i].street in streets)
    {
      if i < n { assert rows[i] == listedRows[i]; } else { assert rows[i] == unlistedRows[i - n]; }
    }
  }

  lemma PivotRowsCover(obs: seq<Obs>, streets: seq<string>, unlisted: seq<string>, listedRows: seq<PivotRow>, unlistedRows: seq<PivotRow>)
    requires forall s :: s in unlisted <==> s !in streets && exists x :: x in obs && x.street == s
    requires CoversBlock(obs, streets, listedRows) && CoversBlock(obs, unlisted, unlistedRows)
    ensures var rows := listedRows + unlistedRows;
      forall x :: x in obs ==> exists i :: 0 <= i < |rows| && rows[i].street == x.street && rows[i].key == x.key
  {
    var rows := listedRows + unlistedRows;
    var n := |listedRows|;
    forall x | x in obs ensures exists i :: 0 <= i < |rows| && rows[i].street == x.street && rows[i].key == x.key {
      if x.street in streets {
        var i :| 0 <= i < n && listedRows[i].street == x.street && listedRows[i].key == x.key;
        assert rows[i] == listedRows[i];
      } else {
        assert x.street in unlisted;
        var i :| 0 <= i < |unlistedRows| && unlistedRows[i].street == x.street && unlistedRows[i].key == x.key;
        assert rows[n + i] == unlistedRows[i];
      }
    }
  }

  lemma PivotRowsOrdered(obs: seq<Obs>, streets: seq<string>, unlisted: seq<string>, listedRows: seq<PivotRow>, unlistedRows: seq<PivotRow>)
    requires RowsOfBlock(obs, streets, true, listedRows) && SortedBlock(streets, listedRows)
    requires RowsOfBlock(obs, unlisted, false, unlistedRows)
    ensures var rows := listedRows + unlistedRows;
      forall i, j :: 0 <= i < j < |rows| && rows[j].streetLabel.Some? ==>
        rows[i].streetLabel.Some? && RowBefore(streets, rows[i], rows[j])
  {
    var rows := listedRows + unlistedRows;
    var n := |listedRows|;
    forall i, j | 0 <= i < j < |rows| && rows[j].streetLabel.Some?
      ensures rows[i].streetLabel.Some? && RowBefore(streets, rows[i], rows[j])
    {
      assert rows[i] == listedRows[i] && rows[j] == listedRows[j];
    }
  }

  lemma PivotRowsDistinct(obs: seq<Obs>, streets: seq<string>, unlisted: seq<string>, listedRows: seq<PivotRow>, unlistedRows: seq<PivotRow>)
    requires forall s :: s in unlisted ==> s !in streets
    requires RowsOfBlock(obs, streets, true, listedRows) && SortedBlock(streets, listedRows)
    requires RowsOfBlock(obs, unlisted, false, unlistedRows) && SortedBlock(unlisted, unlistedRows)
    ensures var rows := listedRows + unlistedRows;
      forall i, j :: 0 <= i < j < |rows| ==> (rows[i].street, rows[i].key) != (rows[j].street, rows[j].key)
  {
    var rows := listedRows + unlistedRows;
    var n := |listedRows|;
    forall i, j | 0 <= i < j < |rows| ensures (rows[i].street, rows[i].key) != (rows[j].street, rows[j].key) {
      if j < n {
        assert RowBefore(streets, listedRows[i], listedRows[j]);
        assert rows[i] == listedRows[i] && rows[j] == listedRows[j];
      } else if n <= i {
        assert RowBefore(unlisted, unlistedRows[i - n], unlistedRows[j - n]);
        assert rows[i] == unlistedRows[i - n] && rows[j] == unlistedRows[j - n];
      } else {
        assert rows[i] == listedRows[i] && rows[j] == unlistedRows[j - n];
        assert rows[i].street in streets && rows[j].street in unlisted;
      }
    }
  }
}
