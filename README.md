# MvxPickerViewModel in Dafny

A model of MvvmCross's iOS picker adapter, `MvxPickerViewModel`. The adapter binds an items
source to a `UIPickerView`. It answers the picker's pull queries from the source: how many
components, how many rows, and the title of each row. When the user picks a row, it updates the
selected item, raises `SelectedItemChanged` and runs `SelectedChangedCommand`. When the source
can announce changes, the adapter keeps at most one change subscription on it and reloads the
picker on every change.

Layout:

- `wrappers.dfy` (module `Wrappers`): `Option`, which stands for a nullable reference.
- `enumerables.dfy` (module `Enumerables`): the `IEnumerable` helpers the adapter calls, given
  their meaning on a sequence. `Count` is `|s|` and `ElementAt(i)` is `s[i]`. `GetPosition` is
  `Position`: the first index holding an equal item, or -1.
- `picker_effects.dfy` (module `PickerEffects`): the adapter's effects on the outside world as
  values (`Effect`). This covers picker calls, the event, the command and subscriptions. The
  module also holds the functions that say which effects `ShowSelectedItem` and a picked row
  cause. `LiveHandles` reads a trace of effects and returns the subscriptions it leaves live.
- `picker_view_model.dfy` (module `PickerBinding`): the class `PickerViewModel`, with the
  adapter's fields. These are the source, the subscription, the selected item,
  `reloadOnAllItemsSourceSets` and the command. A ghost `trace` records every effect in order.
  `ItemsCollection` is the bound source: a reference, so `ReferenceEquals` is reference
  equality, with contents that may change. `PickerView` is the control, read only for
  `hidden`. `Valid()` says that the live subscriptions in the trace are exactly the stored
  one, and that it listens to the current source, which is observable. It also says that
  every handle named in the trace is below `nextHandle`, so each new handle is fresh.
- `examples_picker.dfy` (module `PickerExamples`): client methods that use only the contracts.
  They bind a three-colour source, pick "Green" with a command set, set the same source twice
  and set a null source.

The `ItemsSource` and `SelectedItem` getters return a field with no side effect. In the model
they are the public fields `itemsSource` and `selectedItem`.

## Model

| member | source | states |
|---|---|---|
| `Enumerables.Position` | MvvmCross/Platforms/Ios/Binding/Views/MvxPickerViewModel.cs:149-151 | the position used by `ShowSelectedItem`: -1 exactly when the item is not in the source, otherwise an index holding the item with no equal item before it |
| `Enumerables.PositionOfElement` | MvvmCross/Platforms/Ios/Binding/Views/MvxPickerViewModel.cs:149 | an item found at index i has a position of at most i, and exactly i when no item repeats |
| `PickerEffects.LiveHandlesStep` | MvvmCross/Platforms/Ios/Binding/Views/MvxPickerViewModel.cs:60-72 | taking out a subscription adds its handle to the live set, disposing one removes it, and no other effect changes the set |
| `PickerEffects.LiveHandlesIgnoreViewEffects` | MvvmCross/Platforms/Ios/Binding/Views/MvxPickerViewModel.cs:74-75 | reloads, selects, the event and the command never take out or release a subscription and name no handle, so they keep every handle bound |
| `PickerEffects.ShowSelectedEffects` | MvvmCross/Platforms/Ios/Binding/Views/MvxPickerViewModel.cs:144-155 | no effect without a source, with a null selection, or when the item is not in the source; otherwise one `Select` in component 0 of the first row holding the item, animated exactly when the picker is not hidden |
| `PickerEffects.SelectionEffects` | MvvmCross/Platforms/Ios/Binding/Views/MvxPickerViewModel.cs:118-124 | after a pick the change event is raised exactly once and first; the command runs exactly once on the picked item when it is set and its guard accepts the item, and never otherwise; nothing else happens |
| `PickerEffects.ReshowingPickedItem` | MvvmCross/Platforms/Ios/Binding/Views/MvxPickerViewModel.cs:116-155 | assigning a picked item back as the selection selects exactly one row, at or before the picked row, and the picked row itself when no item repeats |
| `PickerBinding.PickerViewModel.AtMostOneLiveSubscription` | MvvmCross/Platforms/Ios/Binding/Views/MvxPickerViewModel.cs:23 | under the class invariant at most one subscription is live, and a live one means the current source is observable |
| `PickerBinding.PickerViewModel.constructor` | MvvmCross/Platforms/Ios/Binding/Views/MvxPickerViewModel.cs:28-31 | a new adapter holds the picker, with no source, no subscription, no selection, no command, the reload flag false and no effects |
| `PickerBinding.PickerViewModel.Dispose` | MvvmCross/Platforms/Ios/Binding/Views/MvxPickerViewModel.cs:33-45 | `Dispose(true)` disposes the subscription if there is one and leaves none live, so a repeated call adds nothing; `Dispose(false)` changes nothing |
| `PickerBinding.PickerViewModel.ReleaseSubscription` | MvvmCross/Platforms/Ios/Binding/Views/MvxPickerViewModel.cs:60-64 | the stored subscription, if any, is disposed (one `Unsubscribed` effect) and none is stored |
| `PickerBinding.PickerViewModel.SubscribeToSource` | MvvmCross/Platforms/Ios/Binding/Views/MvxPickerViewModel.cs:68-72 | a subscription is taken out exactly when the stored source is observable; its handle is `nextHandle` and is above every handle named earlier in the trace |
| `PickerBinding.PickerViewModel.SetItemsSource` | MvvmCross/Platforms/Ios/Binding/Views/MvxPickerViewModel.cs:54-76 | setting the reference already held, with the reload flag false, changes nothing; otherwise the old subscription is disposed, the new source stored, a subscription with a handle above every earlier one taken out exactly when it is observable, component 0 reloaded once and the selected item shown, in that order; the selection is kept |
| `PickerBinding.PickerViewModel.Rebind` | MvvmCross/Platforms/Ios/Binding/Views/MvxPickerViewModel.cs:60-75 | the set that is not skipped, with its effects in order: dispose, subscribe if observable, reload, show the selection |
| `PickerBinding.PickerViewModel.OnCollectionChanged` | MvvmCross/Platforms/Ios/Binding/Views/MvxPickerViewModel.cs:79-84 | a change on the source adds one reload of component 0 and changes no state |
| `PickerBinding.PickerViewModel.Reload` | MvvmCross/Platforms/Ios/Binding/Views/MvxPickerViewModel.cs:86-89 | one `ReloadComponent(0)` on the picker and nothing else |
| `PickerBinding.PickerViewModel.GetComponentCount` | MvvmCross/Platforms/Ios/Binding/Views/MvxPickerViewModel.cs:91-94 | the picker always has a single component |
| `PickerBinding.PickerViewModel.GetRowsInComponent` | MvvmCross/Platforms/Ios/Binding/Views/MvxPickerViewModel.cs:96-99 | the number of items in the source, for any component; 0 without a source |
| `PickerBinding.PickerViewModel.RowTitle` | MvvmCross/Platforms/Ios/Binding/Views/MvxPickerViewModel.cs:106-109 | the title of a row is the item's string form, whatever the row |
| `PickerBinding.PickerViewModel.GetTitle` | MvvmCross/Platforms/Ios/Binding/Views/MvxPickerViewModel.cs:101-109 | "-" without a source, otherwise the string form of the item in that row; the row must be in range because it is not checked |
| `PickerBinding.PickerViewModel.Selected` | MvvmCross/Platforms/Ios/Binding/Views/MvxPickerViewModel.cs:111-125 | with an empty source nothing changes and nothing fires; otherwise the item in the row becomes the selection and the effects are those of `SelectionEffects`; the source must be non-null and the row in range, because the adapter checks neither and the helpers' behaviour there is not modelled |
| `PickerBinding.PickerViewModel.SetSelectedItem` | MvvmCross/Platforms/Ios/Binding/Views/MvxPickerViewModel.cs:133-137 | the value is stored and then shown, with exactly the effects of `ShowSelectedEffects` |
| `PickerBinding.PickerViewModel.ShowSelectedItem` | MvvmCross/Platforms/Ios/Binding/Views/MvxPickerViewModel.cs:144-155 | its effects are exactly those of `ShowSelectedEffects` on the current source, selection and hidden state; no other state changes |

## Left out

- UIKit itself: how `UIPickerView` draws, reloads and selects. The `ReloadComponent` and
  `Select` calls are trace entries. `Hidden` is read from the `PickerView` object.
- The weak-reference mechanics of `WeakSubscribe`. A subscription is a handle, live from its
  `Subscribed` effect until its `Unsubscribed` effect. Change notifications reach the adapter
  as calls to `OnCollectionChanged`.
- The trace message logged by the collection-changed handler, an effect on an external
  logging sink.
- The `base.Dispose` chain, the `[MvxSetToNullAfterBinding]` attribute and the `UIPickerView`
  arguments of the delegate methods. These arguments always name the adapter's own picker.
- `nint` width: rows, components and positions are unbounded integers. The `(int)` casts are
  identities.
- The `SelectedItemChanged` event: raising it is one `SelectedItemChanged` effect. This holds
  whether or not any handler is attached. How many handlers run, and what they do, is not
  modelled.
- `ICommand` and `ToString` internals. The command's guard is an uninterpreted
  `canExecute: T -> bool`, and the guard does not change over time. The string form of an item
  is a `toText` function given to the constructor.
- Overrides of the virtual members (`ItemsSource`, `Reload`, `RowTitle`, `ShowSelectedItem`,
  the collection-changed handler). The model has the base behaviour only.
- Null items inside a source. The selection may be null (`None`), and a null selection is
  never found in a source.
- The sources of `Count`, `ElementAt` and `GetPosition`, extension methods defined elsewhere in
  the repository. The model gives them the meaning they have on a sequence, with `==` as item
  equality.
- `Selected` with a null source, and `Selected` or `GetTitle` with an out-of-range row: what
  happens depends on how the `Count` and `ElementAt` extension methods treat a null receiver
  and an index past the end, and their code is not part of this model. The model excludes
  these cases by `requires`. UIKit does not call `Selected` on a picker that reported 0 rows.
- Re-entrant event handlers: `Selected` reads the command and the selected item again after
  raising `SelectedItemChanged` (lines 121-124). The model assumes the handlers do not call
  back into the adapter, for example by setting `SelectedItem` or `SelectedChangedCommand`,
  so it uses the item picked from the row.
