/** Worked uses of the picker adapter, proved from the contracts alone: a three-colour source,
    rows picked with a command set, a repeated set of the same source and a null source. */
module PickerExamples {
  import opened Wrappers
  import opened PickerEffects
  import opened PickerBinding

  method BindingColours()
  {
    var picker := new PickerView(false);
    var model := new PickerViewModel<string>(picker, s => s);
    var colours := new ItemsCollection(["Red", "Green", "Blue"], true);
    model.SetItemsSource(colours);
    assert model.subscription.Some? && model.trace[0].Subscribed? && model.trace[1] == ReloadComponent(0);
    assert model.GetComponentCount() == 1 && model.GetRowsInComponent(0) == 3;
    assert model.GetTitle(2, 0) == "Blue";
  }

  method PickingGreen()
  {
    var picker := new PickerView(false);
    var model := new PickerViewModel<string>(picker, s => s);
    var colours := new ItemsCollection(["Red", "Green", "Blue"], false);
    model.SetItemsSource(colours);
    model.selectedChangedCommand := Some(Command(s => s == "Green"));
    ghost var before := model.trace;
    model.Selected(1, 0);
    assert model.selectedItem == Some("Green");
    assert model.trace == before + [SelectedItemChanged, Executed("Green")];
  }

  method PickingWithGuardRefusing()
  {
    var picker := new PickerView(false);
    var model := new PickerViewModel<string>(picker, s => s);
    var colours := new ItemsCollection(["Red", "Green", "Blue"], false);
    model.SetItemsSource(colours);
    model.selectedChangedCommand := Some(Command(s => false));
    ghost var before := model.trace;
    model.Selected(0, 0);
    assert model.selectedItem == Some("Red");
    assert model.trace == before + [SelectedItemChanged];
  }

  method SettingTheSameSourceTwice(colours: ItemsCollection<string>)
  {
    var picker := new PickerView(false);
    var model := new PickerViewModel<string>(picker, s => s);
    model.SetItemsSource(colours);
    ghost var before := model.trace;
    var subscription := model.subscription;
    model.SetItemsSource(colours);
    assert model.trace == before && model.subscription == subscription;
  }

  method AssigningTheSelection()
  {
    var picker := new PickerView(false);
    var model := new PickerViewModel<string>(picker, s => s);
    var colours := new ItemsCollection(["Red", "Green", "Blue"], false);
    model.SetItemsSource(colours);
    ghost var before := model.trace;
    model.SetSelectedItem(Some("Blue"));
    assert model.trace == before + [Select(2, 0, true)];
  }

  method NullSource(colours: ItemsCollection<string>)
  {
    var picker := new PickerView(true);
    var model := new PickerViewModel<string>(picker, s => s);
    model.SetItemsSource(colours);
    model.SetItemsSource(null);
    assert model.subscription.None? && LiveHandles(model.trace) == {};
    assert model.GetRowsInComponent(0) == 0 && model.GetTitle(0, 0) == "-";

    ghost var before := model.trace;
    model.SetSelectedItem(Some("Red"));
    assert model.trace == before;
    model.Dispose(true);
    model.Dispose(true);
    assert model.trace == before;
  }
}
