/**
 * `TypePicker`: a labelled selector over a list of reference types. It shows the `nom_type` of the
 * item whose id is the current value, or a placeholder, and a modal list in which pressing an item
 * reports that item's id to the parent and closes the modal.
 */
module TypePicker {
  import opened Wrappers
  import Lists

  /** One entry of `items`: `{ id, nom_type, description? }`. */
  datatype PickerItem = PickerItem(id: int, nomType: string, description: Option<string>)

  /** The placeholder used when the parent passes none. */
  const DefaultPlaceholder: string := "Sélectionner..."
  /** The icon used when the parent passes none. */
  const DefaultIcon: string := "\U{1F4CB}"

  /** The properties of the component; an absent optional property is `None`. */
  datatype PickerProps = PickerProps(
    caption: string, value: Option<int>, items: seq<PickerItem>,
    placeholder: Option<string>, icon: Option<string>)

  /** `placeholder = 'Sélectionner...'`: only an absent placeholder takes the default. */
  function PlaceholderOf(p: PickerProps): (r: string)
    ensures p.placeholder.None? ==> r == DefaultPlaceholder
    ensures p.placeholder.Some? ==> r == p.placeholder.value
  {
    p.placeholder.GetOr(DefaultPlaceholder)
  }

  /** `icon = '📋'`: only an absent icon takes the default. */
  function IconOf(p: PickerProps): (r: string)
    ensures p.icon.None? ==> r == DefaultIcon
    ensures p.icon.Some? ==> r == p.icon.value
  {
    p.icon.GetOr(DefaultIcon)
  }

  /** `item.id === value`; a `null` value equals no id. */
  predicate IsValue(value: Option<int>, item: PickerItem) {
    value == Some(item.id)
  }

  /** `items.find(item => item.id === value)`. */
  function SelectedItem(items: seq<PickerItem>, value: Option<int>): (r: Option<PickerItem>)
    ensures r.None? <==> value.None? || forall i :: 0 <= i < |items| ==> items[i].id != value.value
    ensures r.Some? ==> value == Some(r.value.id)
    ensures r.Some? ==> exists i :: 0 <= i < |items| && items[i] == r.value && forall j :: 0 <= j < i ==> items[j].id != r.value.id
  {
    Lists.Find(items, item => IsValue(value, item))
  }

  /** `displayText`: the selected item's `nom_type`, otherwise the placeholder. */
  function DisplayText(items: seq<PickerItem>, value: Option<int>, placeholder: string): string {
    var selected := SelectedItem(items, value);
    if selected.Some? then selected.value.nomType else placeholder
  }

  /** `selectedItem?.description && …`: the description line, shown only when it is not empty. */
  function DescriptionLine(items: seq<PickerItem>, value: Option<int>): (r: Option<string>)
    ensures r.Some? ==> r.value != [] && SelectedItem(items, value).Some? && SelectedItem(items, value).value.description == r
    ensures r.None? ==> SelectedItem(items, value).None? || SelectedItem(items, value).value.description in {None, Some([])}
  {
    var selected := SelectedItem(items, value);
    if selected.Some? && selected.value.description.Some? && selected.value.description.value != [] then
      selected.value.description
    else
      None
  }

  /**
   * With no value, or a value that is no item's id, the selector shows the placeholder; this is also
   * the case when the list is still empty.
   */
  lemma PlaceholderWhenUnmatched(items: seq<PickerItem>, value: Option<int>, placeholder: string)
    requires value.None? || forall i :: 0 <= i < |items| ==> items[i].id != value.value
    ensures DisplayText(items, value, placeholder) == placeholder
    ensures DescriptionLine(items, value).None?
  {
  }

  /** With a value that is some item's id, the selector shows the name of the FIRST item with that id. */
  lemma {:induction false} FirstMatchShown(items: seq<PickerItem>, k: nat, placeholder: string)
    requires k < |items|
    requires forall j :: 0 <= j < k ==> items[j].id != items[k].id
    ensures SelectedItem(items, Some(items[k].id)) == Some(items[k])
    ensures DisplayText(items, Some(items[k].id), placeholder) == items[k].nomType
  {
    var r := SelectedItem(items, Some(items[k].id));
    var i :| 0 <= i < |items| && items[i] == r.value && forall j :: 0 <= j < i ==> items[j].id != r.value.id;
    if i != k {
      assert false;
    }
  }

  /** The modal's state and the ids reported through `onValueChange`, in order. */
  class Picker {
    const props: PickerProps
    var modalVisible: bool
    /** Every id passed to `onValueChange` so far. */
    var reported: seq<int>

    constructor(p: PickerProps)
      ensures props == p && !modalVisible && reported == []
    {
      props := p;
      modalVisible := false;
      reported := [];
    }

    /** What the selector shows for the current properties. */
    function Shown(): (r: string)
      reads this
      ensures SelectedItem(props.items, props.value).None? ==> r == PlaceholderOf(props)
      ensures SelectedItem(props.items, props.value).Some? ==> r == SelectedItem(props.items, props.value).value.nomType
    {
      DisplayText(props.items, props.value, PlaceholderOf(props))
    }

    /** Pressing the selector opens the modal. */
    method Open()
      modifies this
      ensures modalVisible && reported == old(reported)
    {
      modalVisible := true;
    }

    /** The overlay, the close button and the back button close the modal and report nothing. */
    method Close()
      modifies this
      ensures !modalVisible && reported == old(reported)
    {
      modalVisible := false;
    }

    /** Pressing the `k`-th row of the open list: its id is reported, then the modal closes. */
    method Choose(k: nat)
      requires modalVisible && k < |props.items|
      modifies this
      ensures reported == old(reported) + [props.items[k].id] && !modalVisible
    {
      reported := reported + [props.items[k].id];
      modalVisible := false;
    }
  }

  /**
   * Once the parent adopts the reported id as its new value, the selector shows the chosen item,
   * provided no earlier row has the same id.
   */
  lemma ChosenIsShown(p: PickerProps, k: nat)
    requires k < |p.items| && forall j :: 0 <= j < k ==> p.items[j].id != p.items[k].id
    ensures DisplayText(p.items, Some(p.items[k].id), PlaceholderOf(p)) == p.items[k].nomType
  {
    FirstMatchShown(p.items, k, PlaceholderOf(p));
  }
}
