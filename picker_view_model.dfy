/** The iOS picker adapter `MvxPickerViewModel`: it binds an items source to a picker control,
    answers the control's row-count, component-count and title queries from the source, turns
    a row picked in the control into a new selected item, the change event and the selection
    command, and keeps at most one change subscription on the source. */
module PickerBinding {
  import opened Wrappers
  import opened Enumerables
  import opened PickerEffects

  /** A bound items source. Its contents may change behind the adapter's back; `observable`
      says whether it raises collection-changed notifications. */
  class ItemsCollection<T> {
    var items: seq<T>
    const observable: bool

    constructor (items: seq<T>, observable: bool)
      ensures this.items == items && this.observable == observable
    {
      this.items := items;
      this.observable := observable;
    }
  }

  /** The picker control, as far as the adapter reads it: whether it is hidden. */
  class PickerView {
    var hidden: bool

    constructor (hidden: bool)
      ensures this.hidden == hidden
    {
      this.hidden := hidden;
    }
  }

  /** A change subscription on `source`, named by `handle`. */
  datatype Subscription<T> = Subscription(handle: nat, source: ItemsCollection<T>)

  /** The disposal of `subscription`, if there is one. */
  function Released<T>(subscription: Option<Subscription<T>>): seq<Effect<T>> {
    if subscription.Some? then [Unsubscribed(subscription.value.handle)] else []
  }

  /** The taking out of `subscription`, if there is one. */
  function Acquired<T>(subscription: Option<Subscription<T>>): seq<Effect<T>> {
    if subscription.Some? then [Subscribed(subscription.value.handle)] else []
  }

  function HandlesOf<T>(subscription: Option<Subscription<T>>): set<nat> {
    if subscription.Some? then {subscription.value.handle} else {}
  }

  class PickerViewModel<T(==)> {
    const pickerView: PickerView
    /** `object.ToString` of an item, the default row title. */
    const toText: T -> string
    var itemsSource: ItemsCollection?<T>             // read by the ItemsSource getter
    var subscription: Option<Subscription<T>>
    var selectedItem: Option<T>                      // read by the SelectedItem getter; None is null
    var reloadOnAllItemsSourceSets: bool
    var selectedChangedCommand: Option<Command<T>>   // None is no command
    /** Source of fresh subscription handles. */
    var nextHandle: nat
    /** Every effect on the picker, the event, the command and the subscriptions, in order. */
    ghost var trace: seq<Effect<T>>

    /** The only live subscription is the stored one, it listens to the current source, and
        that source is observable; every handle taken out so far is below `nextHandle`. */
    ghost predicate Valid()
      reads this`trace, this`subscription, this`itemsSource, this`nextHandle
    {
      && LiveHandles(trace) == HandlesOf(subscription)
      && HandlesBelow(trace, nextHandle)
      && (subscription.Some? ==>
            && itemsSource != null && subscription.value.source == itemsSource && itemsSource.observable
            && subscription.value.handle < nextHandle)
    }

    /** With `Valid()`, at most one subscription is live at any time. */
    lemma AtMostOneLiveSubscription()
      requires Valid()
      ensures |LiveHandles(trace)| <= 1
      ensures LiveHandles(trace) != {} ==> itemsSource != null && itemsSource.observable
    {
    }

    /** The current contents of the source, None when the source is null. */
    function Contents(): Option<seq<T>>
      reads this`itemsSource, itemsSource
    {
      if itemsSource == null then None else Some(itemsSource.items)
    }

    constructor (pickerView: PickerView, toText: T -> string)
      ensures Valid()
      ensures this.pickerView == pickerView && this.toText == toText
      ensures itemsSource == null && subscription.None? && selectedItem.None?
      ensures !reloadOnAllItemsSourceSets && selectedChangedCommand.None?
      ensures trace == []
    {
      this.pickerView := pickerView;
      this.toText := toText;
      itemsSource := null;
      subscription := None;
      selectedItem := None;
      reloadOnAllItemsSourceSets := false;
      selectedChangedCommand := None;
      nextHandle := 0;
      trace := [];
    }

    /** `Dispose(disposing)`: when disposing, the subscription, if any, is disposed and none is
        left, so a repeated call changes nothing; otherwise nothing changes. */
    method Dispose(disposing: bool)
      requires Valid()
      modifies this`subscription, this`trace
      ensures Valid()
      ensures !disposing ==> subscription == old(subscription) && trace == old(trace)
      ensures disposing ==>
        && subscription.None? && LiveHandles(trace) == {}
        && trace == old(trace) + Released(old(subscription))
    {
      if disposing {
        ReleaseSubscription();
      }
    }

    /** Disposes the subscription, if any, and forgets it. */
    method ReleaseSubscription()
      requires Valid()
      modifies this`subscription, this`trace
      ensures Valid() && subscription.None?
      ensures trace == old(trace) + Released(old(subscription))
    {
      if subscription.Some? {
        LiveHandlesStep(trace, Unsubscribed(subscription.value.handle));
        trace := trace + [Unsubscribed(subscription.value.handle)];
        subscription := None;
      }
    }

    /** Takes out a subscription on the stored source when it is observable, with a handle
        no earlier effect names. */
    method SubscribeToSource()
      requires Valid() && subscription.None?
      modifies this`subscription, this`trace, this`nextHandle
      ensures Valid()
      ensures subscription.Some? <==> itemsSource != null && itemsSource.observable
      ensures subscription.Some? ==>
        subscription.value.handle == old(nextHandle) && HandlesBelow(old(trace), subscription.value.handle)
      ensures trace == old(trace) + Acquired(subscription)
    {
      if itemsSource != null && itemsSource.observable {
        subscription := Some(Subscription(nextHandle, itemsSource));
        LiveHandlesStep(trace, Subscribed(nextHandle));
        trace := trace + [Subscribed(nextHandle)];
        nextHandle := nextHandle + 1;
      }
    }

    /** The `ItemsSource` setter. Setting the reference already held, unless
        `reloadOnAllItemsSourceSets`, changes nothing; any other set rebinds to `value`. */
    method SetItemsSource(value: ItemsCollection?<T>)
      requires Valid()
      modifies this`itemsSource, this`subscription, this`nextHandle, this`trace
      ensures Valid()
      ensures old(itemsSource) == value && !reloadOnAllItemsSourceSets ==>
        && itemsSource == old(itemsSource) && subscription == old(subscription)
        && nextHandle == old(nextHandle) && trace == old(trace)
      ensures old(itemsSource) != value || reloadOnAllItemsSourceSets ==>
        && itemsSource == value
        && (subscription.Some? <==> value != null && value.observable)
        && (subscription.Some? ==>
              subscription.value.handle == old(nextHandle) && HandlesBelow(old(trace), subscription.value.handle))
        && trace == old(trace) + Released(old(subscription)) + Acquired(subscription)
                    + [ReloadComponent(0)] + ShowSelectedEffects(Contents(), selectedItem, pickerView.hidden)
    {
      if itemsSource == value && !reloadOnAllItemsSourceSets {
        return;
      }
      Rebind(value);
    }

    /** The body of a set that is not skipped: disposes the old subscription, stores the new
        source, subscribes with a handle no earlier effect names exactly when it is observable, reloads
        component 0 once and then shows the selected item; the selection itself is kept. */
    method Rebind(value: ItemsCollection?<T>)
      requires Valid()
      modifies this`itemsSource, this`subscription, this`nextHandle, this`trace
      ensures Valid()
      ensures itemsSource == value
      ensures subscription.Some? <==> value != null && value.observable
      ensures subscription.Some? ==>
        subscription.value.handle == old(nextHandle) && HandlesBelow(old(trace), subscription.value.handle)
      ensures trace == old(trace) + Released(old(subscription)) + Acquired(subscription)
                       + [ReloadComponent(0)] + ShowSelectedEffects(Contents(), selectedItem, pickerView.hidden)
    {
      ReleaseSubscription();
      itemsSource := value;
      SubscribeToSource();
      Reload();
      ShowSelectedItem();
    }

    /** The collection-changed handler: a full reload of component 0, nothing else. */
    method OnCollectionChanged()
      requires Valid()
      modifies this`trace
      ensures Valid()
      ensures trace == old(trace) + [ReloadComponent(0)]
    {
      Reload();
    }

    /** `Reload`: asks the picker to reload component 0. */
    method Reload()
      requires Valid()
      modifies this`trace
      ensures Valid()
      ensures trace == old(trace) + [ReloadComponent(0)]
    {
      LiveHandlesStep(trace, ReloadComponent(0));
      trace := trace + [ReloadComponent(0)];
    }

    /** `GetComponentCount`: the picker has a single component. */
    function GetComponentCount(): (r: int)
      ensures r == 1
    {
      1
    }

    /** `GetRowsInComponent`: as many rows as the source holds items, none without a source,
        whatever the component asked about. */
    function GetRowsInComponent(component: int): (r: int)
      reads this, itemsSource
      ensures itemsSource == null ==> r == 0
      ensures itemsSource != null ==> r == |itemsSource.items|
    {
      if itemsSource == null then 0 else |itemsSource.items|
    }

    /** `RowTitle`: the item's string form, whatever its row. */
    function RowTitle(row: int, item: T): (r: string)
      ensures r == toText(item)
    {
      toText(item)
    }

    /** `GetTitle`: "-" without a source; otherwise the title of the item in that row. The row
        is not checked against the source's length, so it must be in range. */
    function GetTitle(row: int, component: int): (r: string)
      reads this, itemsSource
      requires itemsSource != null ==> 0 <= row < |itemsSource.items|
      ensures itemsSource == null ==> r == "-"
      ensures itemsSource != null ==> r == toText(itemsSource.items[row])
    {
      if itemsSource == null then "-" else RowTitle(row, itemsSource.items[row])
    }

    /** `Selected`: a row picked in the picker. On an empty source nothing happens; otherwise
        the item in that row becomes the selected item, the change event is raised and the
        command runs on the item when its guard allows. The adapter checks neither a null source
        nor the row's range, so both are required. */
    method Selected(row: int, component: int)
      requires Valid()
      requires itemsSource != null
      requires |itemsSource.items| > 0 ==> 0 <= row < |itemsSource.items|
      modifies this`selectedItem, this`trace
      ensures Valid()
      ensures |itemsSource.items| == 0 ==> selectedItem == old(selectedItem) && trace == old(trace)
      ensures |itemsSource.items| > 0 ==>
        && selectedItem == Some(itemsSource.items[row])
        && trace == old(trace) + SelectionEffects(itemsSource.items[row], selectedChangedCommand)
    {
      if |itemsSource.items| == 0 {
        return;
      }
      var item := itemsSource.items[row];
      selectedItem := Some(item);
      ghost var before := trace;
      trace := trace + [SelectedItemChanged];
      if selectedChangedCommand.Some? && selectedChangedCommand.value.canExecute(item) {
        trace := trace + [Executed(item)];
      }
      assert trace == before + SelectionEffects(item, selectedChangedCommand);
      LiveHandlesIgnoreViewEffects(before, SelectionEffects(item, selectedChangedCommand), nextHandle);
    }

    /** The `SelectedItem` setter: stores the value, then shows it in the picker. */
    method SetSelectedItem(value: Option<T>)
      requires Valid()
      modifies this`selectedItem, this`trace
      ensures Valid()
      ensures selectedItem == value
      ensures trace == old(trace) + ShowSelectedEffects(Contents(), value, pickerView.hidden)
    {
      selectedItem := value;
      ShowSelectedItem();
    }

    /** `ShowSelectedItem`: selects, in component 0, the first row holding the selected item,
        animated when the picker is not hidden; does nothing without a source or when the item
        is not in it. */
    method ShowSelectedItem()
      requires Valid()
      modifies this`trace
      ensures Valid()
      ensures trace == old(trace) + ShowSelectedEffects(Contents(), selectedItem, pickerView.hidden)
    {
      ghost var effects := ShowSelectedEffects(Contents(), selectedItem, pickerView.hidden);
      if itemsSource == null || selectedItem.None? {
        assert effects == [] && trace == old(trace) + effects;
        return;
      }
      var position := Position(itemsSource.items, selectedItem.value);
      if position < 0 {
        assert effects == [] && trace == old(trace) + effects;
        return;
      }
      var animated := !pickerView.hidden;
      assert effects == [Select(position, 0, animated)];
      LiveHandlesIgnoreViewEffects(trace, effects, nextHandle);
      trace := trace + [Select(position, 0, animated)];
    }
  }
}
