/**
 One row of the token table (components/molecules/TokenRow.tsx): the 24h
 change cell and the price-flash highlight. The refs `isInitialMount` and
 `prevPriceRef` and the `priceFlash` state become fields of a class; the two
 effects, the `requestAnimationFrame` callback and the 700 ms clear timeout
 become explicit events.
 */
module TokenRow {
  import opened Types

  /** The `priceFlash` state: null, "up" or "down". */
  datatype Flash = NoFlash | Up | Down

  /** The 24h change cell: a dash, or a percentage to be formatted. */
  datatype ChangeCell = Dash | Percent(fraction: real)

  /** The cell shows "-" exactly when the 24h change is zero. */
  function ChangeCellOf(t: Token): (c: ChangeCell)
    ensures c == Dash <==> t.priceChange24h == 0.0
    ensures c.Percent? ==> c.fraction * 100.0 == t.priceChange24h
  {
    var percentChange := t.priceChange24h / 100.0;
    if percentChange == 0.0 then Dash else Percent(percentChange)
  }

  /** The direction the detection effect records for a price move. */
  function MoveOf(prev: real, price: real): (f: Flash)
    requires prev != price
    ensures f == Up <==> price > prev
    ensures f == Down <==> price < prev
  {
    if price > prev then Up else Down
  }

  class PriceFlashRow {
    var isInitialMount: bool
    var prevPrice: real
    var priceFlash: Flash
    /** Directions queued with `requestAnimationFrame`, oldest first. */
    var frames: seq<Flash>
    /** The clear timeout scheduled for the current flash, if any. */
    var pendingClear: Option<nat>
    /** The id the next scheduled timeout receives. */
    var nextTimer: nat

    /**
     A flash is showing exactly when a clear is pending; every timeout id
     handed out so far is below `nextTimer`; only "up"/"down" are queued; and
     nothing is queued or shown before the first observation.
     */
    ghost predicate Valid()
      reads this
    {
      && (pendingClear.Some? <==> priceFlash != NoFlash)
      && (pendingClear.Some? ==> pendingClear.value < nextTimer)
      && (forall k :: 0 <= k < |frames| ==> frames[k] != NoFlash)
      && (isInitialMount ==> frames == [] && priceFlash == NoFlash)
    }

    /** The first render: both refs are initialised from the token's price. */
    constructor (price: real)
      ensures Valid()
      ensures isInitialMount && prevPrice == price
      ensures priceFlash == NoFlash && frames == [] && pendingClear == None && nextTimer == 0
    {
      isInitialMount := true;
      prevPrice := price;
      priceFlash := NoFlash;
      frames := [];
      pendingClear := None;
      nextTimer := 0;
    }

    /**
     The price-change detection effect, run with the price just rendered. The
     first run only records the price; later runs queue "up" or "down" when
     the price moved and record the new price.
     */
    method DetectPriceChange(price: real)
      requires Valid()
      modifies this
      ensures Valid()
      ensures prevPrice == price && !isInitialMount
      ensures priceFlash == old(priceFlash) && pendingClear == old(pendingClear) && nextTimer == old(nextTimer)
      ensures old(isInitialMount) || old(prevPrice) == price ==> frames == old(frames)
      ensures !old(isInitialMount) && old(prevPrice) < price ==> frames == old(frames) + [Up]
      ensures !old(isInitialMount) && old(prevPrice) > price ==> frames == old(frames) + [Down]
    {
      if isInitialMount {
        isInitialMount := false;
        prevPrice := price;
        return;
      }
      if prevPrice != price {
        var direction := MoveOf(prevPrice, price);
        frames := frames + [direction];
        prevPrice := price;
      }
    }

    /**
     `setPriceFlash(next)` followed by the flash-clear effect, which React
     re-runs only when the state actually changes: its cleanup cancels the
     previous timeout, and a non-null flash schedules a fresh one.
     */
    method SetPriceFlash(next: Flash)
      requires Valid()
      requires next != NoFlash ==> !isInitialMount
      modifies this
      ensures Valid()
      ensures priceFlash == next
      ensures isInitialMount == old(isInitialMount) && prevPrice == old(prevPrice) && frames == old(frames)
      ensures next == old(priceFlash) ==> pendingClear == old(pendingClear) && nextTimer == old(nextTimer)
      ensures next != old(priceFlash) && next != NoFlash ==>
        pendingClear == Some(old(nextTimer)) && nextTimer == old(nextTimer) + 1
      ensures next != old(priceFlash) && next == NoFlash ==> pendingClear == None && nextTimer == old(nextTimer)
    {
      if next != priceFlash {
        priceFlash := next;
        if next != NoFlash {
          pendingClear := Some(nextTimer);
          nextTimer := nextTimer + 1;
        } else {
          pendingClear := None;
        }
      }
    }

    /**
     The oldest queued animation frame runs and shows its direction. A
     different direction replaces the pending clear with a fresh one, so the
     older flash's timeout can no longer clear anything.
     */
    method AnimationFrame()
      requires Valid()
      modifies this
      ensures Valid()
      ensures old(frames) == [] ==> unchanged(this)
      ensures old(frames) != [] ==> frames == old(frames)[1..] && priceFlash == old(frames)[0]
      ensures old(frames) != [] && old(frames)[0] == old(priceFlash) ==>
        pendingClear == old(pendingClear) && nextTimer == old(nextTimer)
      ensures old(frames) != [] && old(frames)[0] != old(priceFlash) ==>
        pendingClear == Some(old(nextTimer)) && nextTimer == old(nextTimer) + 1
      ensures isInitialMount == old(isInitialMount) && prevPrice == old(prevPrice)
    {
      if frames != [] {
        var direction := frames[0];
        frames := frames[1..];
        SetPriceFlash(direction);
      }
    }

    /**
     A clear timeout fires. Only the pending one still acts (the others were
     cancelled by the effect's cleanup): it resets the flash to null.
     */
    method ClearTimeoutFires(id: nat)
      requires Valid()
      modifies this
      ensures Valid()
      ensures old(pendingClear) == Some(id) ==>
        priceFlash == NoFlash && pendingClear == None &&
        frames == old(frames) && prevPrice == old(prevPrice) && isInitialMount == old(isInitialMount) &&
        nextTimer == old(nextTimer)
      ensures old(pendingClear) != Some(id) ==> unchanged(this)
    {
      if pendingClear == Some(id) {
        SetPriceFlash(NoFlash);
      }
    }
  }

  /**
   A row whose price rises from `p0` to `p1` and then falls to `p2` before the
   first flash is cleared: the rise shows "up", the fall shows "down", the
   timeout of the "up" flash then fires without effect, and only the timeout
   of the "down" flash clears the highlight.
   */
  method RiseThenFall(p0: real, p1: real, p2: real)
    returns (afterMount: Flash, afterRise: Flash, afterFall: Flash, afterStaleClear: Flash, afterClear: Flash)
    requires p0 < p1 && p2 < p1
    ensures afterMount == NoFlash && afterRise == Up && afterFall == Down
    ensures afterStaleClear == Down && afterClear == NoFlash
  {
    var row := new PriceFlashRow(p0);
    row.DetectPriceChange(p0);
    afterMount := row.priceFlash;
    row.DetectPriceChange(p1);
    row.AnimationFrame();
    afterRise := row.priceFlash;
    var upTimer := row.pendingClear.value;
    row.DetectPriceChange(p2);
    row.AnimationFrame();
    afterFall := row.priceFlash;
    var downTimer := row.pendingClear.value;
    row.ClearTimeoutFires(upTimer);
    afterStaleClear := row.priceFlash;
    row.ClearTimeoutFires(downTimer);
    afterClear := row.priceFlash;
  }

  /**
   A rise, a fall and the fall's timeout clearing the highlight, then another
   rise: the timeout of the first rise, cancelled long before, still fires
   without effect, and the new "up" stays until its own timeout.
   */
  method StaleTimeoutAfterClear(p0: real, p1: real, p2: real, p3: real)
    returns (afterStaleClear: Flash, afterClear: Flash)
    requires p0 < p1 && p2 < p1 && p2 < p3
    ensures afterStaleClear == Up && afterClear == NoFlash
  {
    var row := new PriceFlashRow(p0);
    row.DetectPriceChange(p0);
    row.DetectPriceChange(p1);
    row.AnimationFrame();
    var firstUpTimer := row.pendingClear.value;
    row.DetectPriceChange(p2);
    row.AnimationFrame();
    var downTimer := row.pendingClear.value;
    row.ClearTimeoutFires(downTimer);
    row.DetectPriceChange(p3);
    row.AnimationFrame();
    var secondUpTimer := row.pendingClear.value;
    row.ClearTimeoutFires(firstUpTimer);
    afterStaleClear := row.priceFlash;
    row.ClearTimeoutFires(secondUpTimer);
    afterClear := row.priceFlash;
  }
}
