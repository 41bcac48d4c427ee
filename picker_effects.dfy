/** What the picker adapter does to the world around it, as values: the calls it makes on the
    picker control, the event it raises, the command it runs and the change subscriptions it
    takes out and releases. The adapter records these, in order, in a ghost trace. */
module PickerEffects {
  import opened Wrappers
  import opened Enumerables

  datatype Effect<T> =
    | Subscribed(handle: nat)                          // change notifications taken out on a source
    | Unsubscribed(handle: nat)                        // that subscription disposed
    | ReloadComponent(component: int)                  // picker.ReloadComponent(component)
    | Select(row: int, component: int, animated: bool) // picker.Select(row, component, animated)
    | SelectedItemChanged                              // the SelectedItemChanged event raised
    | Executed(item: T)                                // SelectedChangedCommand.Execute(item)

  /** The selection command: only its guard matters to the adapter; running it is an effect. */
  datatype Command<!T> = Command(canExecute: T -> bool)

  /** An effect on the picker, the event or the command, not on the subscription. */
  predicate IsViewEffect<T>(e: Effect<T>) {
    !e.Subscribed? && !e.Unsubscribed?
  }

  predicate ViewEffectsOnly<T>(u: seq<Effect<T>>) {
    forall i :: 0 <= i < |u| ==> IsViewEffect(u[i])
  }

  /** The subscriptions a trace leaves live: taken out and not disposed since. */
  ghost function LiveHandles<T>(t: seq<Effect<T>>): set<nat>
    decreases |t|
  {
    if t == [] then {}
    else
      var earlier := LiveHandles(t[..|t| - 1]);
      match t[|t| - 1]
      case Subscribed(h) => earlier + {h}
      case Unsubscribed(h) => earlier - {h}
      case _ => earlier
  }

  /** Every subscription handle the trace names is below `n`, so `n` and every handle above
      it are fresh. */
  ghost predicate HandlesBelow<T>(t: seq<Effect<T>>, n: nat) {
    forall i :: 0 <= i < |t| && !IsViewEffect(t[i]) ==> t[i].handle < n
  }

  /** Appending one effect changes the live subscriptions only by the handle it names. */
  lemma LiveHandlesStep<T>(t: seq<Effect<T>>, e: Effect<T>)
    ensures e.Subscribed? ==> LiveHandles(t + [e]) == LiveHandles(t) + {e.handle}
    ensures e.Unsubscribed? ==> LiveHandles(t + [e]) == LiveHandles(t) - {e.handle}
    ensures IsViewEffect(e) ==> LiveHandles(t + [e]) == LiveHandles(t)
  {
  }

  /** Effects on the picker, the event and the command never take out or release a
      subscription, and name no handle. */
  lemma {:induction false} LiveHandlesIgnoreViewEffects<T>(t: seq<Effect<T>>, u: seq<Effect<T>>, n: nat)
    requires ViewEffectsOnly(u)
    ensures LiveHandles(t + u) == LiveHandles(t)
    ensures HandlesBelow(t, n) ==> HandlesBelow(t + u, n)
    decreases |u|
  {
    if u == [] {
      assert t + u == t;
    } else {
      var v := u[..|u| - 1];
      assert t + u == (t + v) + [u[|u| - 1]];
      assert ViewEffectsOnly(v) && IsViewEffect(u[|u| - 1]);
      LiveHandlesIgnoreViewEffects(t, v, n);
      LiveHandlesStep(t + v, u[|u| - 1]);
    }
  }

  /** `ShowSelectedItem`: nothing when there is no source or the selected item is not in it
      (or is null); otherwise one `Select` of the first row holding the selected item, in
      component 0, animated exactly when the picker is not hidden. */
  function ShowSelectedEffects<T(==)>(source: Option<seq<T>>, selected: Option<T>, hidden: bool): (r: seq<Effect<T>>)
    ensures |r| <= 1 && ViewEffectsOnly(r)
    ensures r == [] <==> source.None? || selected.None? || selected.value !in source.value
    ensures r != [] ==>
      && r[0].Select? && r[0].component == 0 && r[0].animated == !hidden
      && 0 <= r[0].row < |source.value|
      && source.value[r[0].row] == selected.value
      && forall j :: 0 <= j < r[0].row ==> source.value[j] != selected.value
  {
    if source.None? || selected.None? then []
    else
      var position := Position(source.value, selected.value);
      if position < 0 then [] else [Select(position, 0, !hidden)]
  }

  /** What picking `item` in the picker sets off: the change event, raised exactly once and first,
      then the command run exactly once on `item` when one is set and its guard accepts `item`,
      and never otherwise. */
  function SelectionEffects<T(==)>(item: T, command: Option<Command<T>>): (r: seq<Effect<T>>)
    ensures |r| == if command.Some? && command.value.canExecute(item) then 2 else 1
    ensures ViewEffectsOnly(r)
    ensures r[0] == SelectedItemChanged && SelectedItemChanged !in r[1..]
    ensures forall i :: 0 <= i < |r| && r[i].Executed? ==> r[i].item == item
    ensures Executed(item) in r <==> command.Some? && command.value.canExecute(item)
  {
    var event := [SelectedItemChanged];
    if command.Some? && command.value.canExecute(item) then event + [Executed(item)] else event
  }

  /** Picking row `row` and then assigning the item found there back as the selection shows
      that item in the first row that holds it, which is `row` itself when no item repeats. */
  lemma ReshowingPickedItem<T>(items: seq<T>, row: int, hidden: bool)
    requires 0 <= row < |items|
    ensures var shown := ShowSelectedEffects(Some(items), Some(items[row]), hidden);
      && |shown| == 1 && shown[0].Select? && shown[0].row <= row && shown[0].animated == !hidden
      && (Distinct(items) ==> shown == [Select(row, 0, !hidden)])
  {
    PositionOfElement(items, row);
  }
}
