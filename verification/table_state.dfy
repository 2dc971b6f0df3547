/**
 The table's view state (the hook's `useState` cells) and the two pure
 decisions made on the sort configuration: the three-state header toggle and
 the arrow drawn next to each header.
 */
module TableState {
  import opened Wrappers
  import opened Invoices

  /** Sort column and direction; either may be absent. */
  datatype SortConfig = SortConfig(key: Option<SortKey>, direction: Option<Direction>)
  {
    /** The table is sorted only when both a column and a direction are set. */
    predicate Active()
    {
      key.Some? && direction.Some?
    }
  }

  datatype ViewState = ViewState(
    clientFilter: string,
    yearFilter: string,
    sort: SortConfig,
    selectedRow: Option<string>,
    currentPage: int,
    itemsPerPage: int)

  /** The state before any input: no filter, every year, no sort, page 1 of 10 rows. */
  const Initial := ViewState("", "all", SortConfig(None, None), None, 1, 10)

  /**
   A click on the header of `key`. Another column starts ascending; the same
   column goes ascending, descending, then unsorted, and the column stays
   recorded when the direction is cleared.
   */
  function ToggleSort(c: SortConfig, key: SortKey): (r: SortConfig)
    ensures r.key == Some(key)
    ensures c.key != Some(key) ==> r.direction == Some(Asc)
    ensures c.key == Some(key) && c.direction == Some(Asc) ==> r.direction == Some(Desc)
    ensures c.key == Some(key) && c.direction == Some(Desc) ==> r.direction == None
    ensures c.key == Some(key) && c.direction == None ==> r.direction == Some(Asc)
  {
    var direction :=
      if c.key == Some(key) then
        (match c.direction
         case Some(Asc) => Some(Desc)
         case Some(Desc) => None
         case None => Some(Asc))
      else Some(Asc);
    SortConfig(Some(key), direction)
  }

  /** Three clicks on one column, starting from another column or none, leave that column unsorted. */
  lemma ThreeClicksUnsort(c: SortConfig, key: SortKey)
    requires c.key != Some(key)
    ensures ToggleSort(ToggleSort(ToggleSort(c, key), key), key) == SortConfig(Some(key), None)
    ensures !ToggleSort(ToggleSort(ToggleSort(c, key), key), key).Active()
  {
  }

  /** Once a column is recorded, clicking it cycles with period three. */
  lemma ToggleCycle(c: SortConfig, key: SortKey)
    requires c.key == Some(key)
    ensures ToggleSort(ToggleSort(ToggleSort(c, key), key), key) == c
  {
  }

  datatype Indicator = Up | Down | Neutral

  /** The arrow next to the header of `key`. */
  function SortIndicator(c: SortConfig, key: SortKey): (r: Indicator)
    ensures r == Up <==> c.key == Some(key) && c.direction == Some(Asc)
    ensures r == Down <==> c.key == Some(key) && c.direction == Some(Desc)
  {
    if c.key != Some(key) then Neutral
    else if c.direction == Some(Asc) then Up
    else if c.direction == Some(Desc) then Down
    else Neutral
  }

  /** Some header shows an arrow exactly when the table is sorted, and then only the sorted column's does. */
  lemma IndicatorShowsActiveSort(c: SortConfig)
    ensures (exists key :: SortIndicator(c, key) != Neutral) <==> c.Active()
    ensures forall key :: SortIndicator(c, key) != Neutral ==> c.key == Some(key)
  {
    if c.Active() {
      assert c.direction.Some?;
      assert c.direction.value.Asc? || c.direction.value.Desc?;
      assert SortIndicator(c, c.key.value) != Neutral;
    }
  }
}
