/** The settings modal (synaptic-learn/src/modals/settings-modal.tsx): the effect that
    shows or closes the `<dialog>`, the theme checkbox and the max-results slider.
    The modal takes theme and maxResults from the `useTheme` and `useMaxResults`
    hooks, not from the settings store. */
module SettingsModal {
  import opened Text
  import Browser
  import ThemeHook
  import MaxResultsHook

  /** What the modal reads from the modal store. use-modal-store.ts is not part of
      this model, so `onClose` is recorded as a count of its calls. */
  class ModalStore {
    var isOpen: bool
    var modalType: Option<string>
    var closeCalls: nat

    constructor(isOpen: bool, modalType: Option<string>)
      ensures this.isOpen == isOpen && this.modalType == modalType && closeCalls == 0
    {
      this.isOpen := isOpen;
      this.modalType := modalType;
      closeCalls := 0;
    }

    /** `isOpen && type === "settings"`. */
    predicate IsModalOpen()
      reads this
    {
      isOpen && modalType == Some("settings")
    }
  }

  /** The effect on `[isModalOpen, onClose]`: nothing without the dialog element;
      otherwise show it when the modal is open, and close it and call `onClose`
      when it is not. Closing a shown dialog also fires its `close` event, whose
      handler calls `onClose` a second time. */
  method SyncDialog(store: ModalStore, dialog: Browser.DialogElement?)
    modifies dialog, store`closeCalls
    ensures dialog == null ==> store.closeCalls == old(store.closeCalls)
    ensures dialog != null && store.IsModalOpen() ==> dialog.open && store.closeCalls == old(store.closeCalls)
    ensures dialog != null && !store.IsModalOpen() ==>
      !dialog.open && store.closeCalls == old(store.closeCalls) + (if old(dialog.open) then 2 else 1)
  {
    if dialog == null {
      return;
    }
    if store.IsModalOpen() {
      dialog.ShowModal();
    } else {
      var fired := dialog.Close();
      store.closeCalls := store.closeCalls + 1;
      if fired {
        // later, the `close` event reaches the `<dialog>`'s `onClose` handler
        store.closeCalls := store.closeCalls + 1;
      }
    }
  }

  /** The user closes the dialog with Escape or with the Close or Save button of
      its `method="dialog"` form (neither button does anything else): a shown
      dialog is hidden and its `close` event calls `onClose` once. */
  method UserClose(store: ModalStore, dialog: Browser.DialogElement)
    modifies dialog, store`closeCalls
    ensures !dialog.open
    ensures store.closeCalls == old(store.closeCalls) + (if old(dialog.open) then 1 else 0)
  {
    var fired := dialog.Close();
    if fired {
      store.closeCalls := store.closeCalls + 1;
    }
  }

  /** The range input's `min`, `max` and `step`. */
  const SliderMin := 0
  const SliderMax := 100
  const SliderStep := 25

  /** The values the range input can take: it snaps to its step. */
  type SliderValue = v: int | SliderMin <= v <= SliderMax && v % SliderStep == 0

  /** `handleMaxResultsChange`: `value / step + 1`. */
  function MaxResultsFor(position: SliderValue): (m: int)
    ensures 1 <= m <= 5
  {
    position / SliderStep + 1
  }

  /** The initial position, `(maxResults - 1) * 25`, as the range input takes it: a
      NaN falls back to the middle of the range and other values are clamped into it. */
  function SliderStart(maxResults: MaxResultsHook.JsValue): SliderValue {
    match MaxResultsHook.ToInteger(maxResults)
    case None => 50
    case Some(m) =>
      if m - 1 <= 0 then 0
      else if m - 1 >= 4 then 100
      else (m - 1) * SliderStep
  }

  /** The five positions give maxResults 1 to 5, and position and maxResults are
      each other's inverse on those ranges. */
  lemma SliderRoundTrips(position: SliderValue, m: int)
    ensures SliderStart(MaxResultsHook.Num(MaxResultsFor(position))) == position
    ensures 1 <= m <= 5 ==> MaxResultsFor(SliderStart(MaxResultsHook.Num(m))) == m
  {
  }

  /** A count outside 1..5 puts the slider at an end. */
  lemma SliderStartClamps(m: int)
    ensures m < 1 ==> SliderStart(MaxResultsHook.Num(m)) == SliderMin
    ensures m > 5 ==> SliderStart(MaxResultsHook.Num(m)) == SliderMax
  {
  }

  /** After a reload the hook holds the stored string, and the slider starts where
      it was left. */
  lemma SliderStartAfterReload(m: int)
    ensures SliderStart(MaxResultsHook.InitialMaxResults(Some(MaxResultsHook.ToJsString(MaxResultsHook.Num(m)))))
            == SliderStart(MaxResultsHook.Num(m))
  {
    MaxResultsHook.StoredNumberReadsBack(m);
  }

  /** Each change flips the checkbox and toggles the theme. Started as
      `defaultChecked={theme === "dark"}`, the box keeps showing whether the theme is
      dark exactly when the theme is one of the two known ones. */
  lemma CheckboxTracksTheme(theme: string, checked: bool)
    requires checked == (theme == ThemeHook.Dark)
    ensures (!checked == (ThemeHook.NextTheme(theme) == ThemeHook.Dark)) <==> ThemeHook.IsKnownTheme(theme)
  {
  }

  /** The modal's own input state, over the two hooks it reads. */
  class SettingsModalView {
    const themeHook: ThemeHook.UseTheme
    const maxResultsHook: MaxResultsHook.UseMaxResults
    var checked: bool
    var sliderPosition: SliderValue

    ghost predicate CheckboxInSync()
      reads this, themeHook
    {
      checked == (themeHook.theme == ThemeHook.Dark)
    }

    constructor(themeHook: ThemeHook.UseTheme, maxResultsHook: MaxResultsHook.UseMaxResults)
      ensures this.themeHook == themeHook && this.maxResultsHook == maxResultsHook
      ensures checked == (themeHook.theme == ThemeHook.Dark)
      ensures sliderPosition == SliderStart(maxResultsHook.maxResults)
    {
      this.themeHook := themeHook;
      this.maxResultsHook := maxResultsHook;
      checked := themeHook.theme == ThemeHook.Dark;
      sliderPosition := SliderStart(maxResultsHook.maxResults);
    }

    /** A click on the checkbox: the box flips and `toggleTheme` runs. The two hooks
        may share one `localStorage`; only its "theme" entry changes, so the stored
        count stays as it was. */
    method ThemeChange()
      modifies this, themeHook, themeHook.storage, themeHook.root
      ensures checked == !old(checked) && sliderPosition == old(sliderPosition)
      ensures themeHook.theme == ThemeHook.NextTheme(old(themeHook.theme))
      ensures themeHook.storage.items == old(themeHook.storage.items)[ThemeHook.ThemeKey := themeHook.theme]
      ensures themeHook.root.attributes == old(themeHook.root.attributes)[ThemeHook.ThemeAttribute := themeHook.theme]
      ensures themeHook.Synced()
      ensures maxResultsHook.maxResults == old(maxResultsHook.maxResults)
      ensures old(maxResultsHook.Synced()) ==> maxResultsHook.Synced()
      ensures old(CheckboxInSync()) && ThemeHook.IsKnownTheme(old(themeHook.theme)) ==> CheckboxInSync()
    {
      if CheckboxInSync() {
        CheckboxTracksTheme(themeHook.theme, checked);
      }
      checked := !checked;
      themeHook.ToggleTheme();
    }

    /** A move of the slider: `setMaxResults(value / step + 1)`. Only the
        "maxResults" entry of storage changes, so the stored theme stays as it was. */
    method SliderChange(position: SliderValue)
      modifies this, maxResultsHook, maxResultsHook.storage
      ensures sliderPosition == position && checked == old(checked)
      ensures maxResultsHook.maxResults == MaxResultsHook.Num(MaxResultsFor(position))
      ensures maxResultsHook.storage.items
              == old(maxResultsHook.storage.items)[MaxResultsHook.MaxResultsKey := MaxResultsHook.ToJsString(maxResultsHook.maxResults)]
      ensures maxResultsHook.Synced()
      ensures themeHook.theme == old(themeHook.theme)
      ensures themeHook.root.attributes == old(themeHook.root.attributes)
      ensures old(themeHook.Synced()) ==> themeHook.Synced()
    {
      sliderPosition := position;
      maxResultsHook.SetMaxResults(MaxResultsHook.Num(MaxResultsFor(position)));
    }
  }
}
