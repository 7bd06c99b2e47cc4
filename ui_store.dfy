/**
 * The UI store (src/stores/uiStore.ts): the toast list, the modal and the
 * layout flags.  Each action is a method that changes only its own field;
 * the random toast id is a parameter and the auto-removal timer is left out.
 */
module UiStore {
  import opened Wrappers

  datatype ToastKind = Success | Error | Warning | Info

  /** What a caller passes to `addToast`; `None` is an omitted field. */
  datatype ToastInput = ToastInput(title: Option<string>, description: Option<string>, kind: Option<ToastKind>, duration: Option<int>)

  /** A stored toast: the input with its id and an effective duration (milliseconds). */
  datatype Toast = Toast(id: string, title: Option<string>, description: Option<string>, kind: Option<ToastKind>, duration: int)

  const DefaultDuration := 5000

  /**
   * The toast `addToast` builds: the given id, the input's fields, and the given
   * duration unless it is missing or 0 (falsy), when it is 5000.
   */
  function MakeToast(input: ToastInput, id: string): (t: Toast)
    ensures t.id == id
    ensures t.title == input.title && t.description == input.description && t.kind == input.kind
    ensures input.duration.None? || input.duration == Some(0) ==> t.duration == 5000
    ensures input.duration.Some? && input.duration.value != 0 ==> t.duration == input.duration.value
    ensures t.duration != 0
  {
    var duration := if input.duration.Some? && input.duration.value != 0 then input.duration.value else DefaultDuration;
    Toast(id, input.title, input.description, input.kind, duration)
  }

  /** `toasts.filter(t => t.id !== id)`. */
  function WithoutId(toasts: seq<Toast>, id: string): (r: seq<Toast>)
    ensures |r| <= |toasts|
    ensures forall i :: 0 <= i < |r| ==> r[i].id != id && r[i] in toasts
    ensures forall i :: 0 <= i < |toasts| && toasts[i].id != id ==> toasts[i] in r
  {
    if |toasts| == 0 then []
    else
      var rest := WithoutId(toasts[1..], id);
      assert forall i :: 0 <= i < |rest| ==> rest[i] in toasts by {
        forall i | 0 <= i < |rest| ensures rest[i] in toasts {
          assert rest[i] in toasts[1..];
        }
      }
      assert forall i :: 1 <= i < |toasts| ==> toasts[i] == toasts[1..][i - 1];
      if toasts[0].id != id then [toasts[0]] + rest else rest
  }

  /** Removing by id works toast by toast, so the kept toasts stay in their original order. */
  lemma {:induction false} WithoutIdAppend(a: seq<Toast>, b: seq<Toast>, id: string)
    ensures WithoutId(a + b, id) == WithoutId(a, id) + WithoutId(b, id)
  {
    if |a| > 0 {
      assert (a + b)[1..] == a[1..] + b;
      WithoutIdAppend(a[1..], b, id);
    } else {
      assert a + b == b;
    }
  }

  /** Removing an id that no toast carries leaves the list unchanged. */
  lemma {:induction false} WithoutUnknownId(toasts: seq<Toast>, id: string)
    requires forall i :: 0 <= i < |toasts| ==> toasts[i].id != id
    ensures WithoutId(toasts, id) == toasts
  {
    if |toasts| > 0 {
      WithoutUnknownId(toasts[1..], id);
      assert [toasts[0]] + toasts[1..] == toasts;
    }
  }

  /** A toast added with a fresh id and then removed (as its timer does) leaves the list as it was. */
  lemma AddThenRemoveRestores(toasts: seq<Toast>, input: ToastInput, id: string)
    requires forall i :: 0 <= i < |toasts| ==> toasts[i].id != id
    ensures WithoutId(toasts + [MakeToast(input, id)], id) == toasts
  {
    WithoutIdAppend(toasts, [MakeToast(input, id)], id);
    WithoutUnknownId(toasts, id);
    assert WithoutId([MakeToast(input, id)], id) == [];
  }

  /** Removal by the same id twice is the same as once. */
  lemma WithoutIdIdempotent(toasts: seq<Toast>, id: string)
    ensures WithoutId(WithoutId(toasts, id), id) == WithoutId(toasts, id)
  {
    WithoutUnknownId(WithoutId(toasts, id), id);
  }

  /** The modal record: open or closed, its type, and its data (`None` is null). */
  datatype ModalState<D> = ModalState(isOpen: bool, modalType: Option<string>, data: Option<D>)

  /** The store state; `D` stands for the modal data the pages pass in. */
  class UiStore<D> {
    var toasts: seq<Toast>
    var modal: ModalState<D>
    var sidebarOpen: bool
    var mobileMenuOpen: bool
    var isScrolled: bool
    var globalLoading: bool

    /** The initial state: no toasts, modal closed, sidebar open, everything else off. */
    constructor ()
      ensures toasts == [] && modal == ModalState(false, None, None)
      ensures sidebarOpen && !mobileMenuOpen && !isScrolled && !globalLoading
    {
      toasts := [];
      modal := ModalState(false, None, None);
      sidebarOpen := true;
      mobileMenuOpen := false;
      isScrolled := false;
      globalLoading := false;
    }

    /** `addToast` with a freshly drawn `id`: appends exactly one toast, keeping the earlier ones. */
    method AddToast(input: ToastInput, id: string)
      modifies this`toasts
      ensures toasts == old(toasts) + [MakeToast(input, id)]
    {
      var newToast := MakeToast(input, id);
      toasts := toasts + [newToast];
    }

    /** `removeToast`: keeps exactly the toasts with another id, in order. */
    method RemoveToast(id: string)
      modifies this`toasts
      ensures toasts == WithoutId(old(toasts), id)
    {
      toasts := WithoutId(toasts, id);
    }

    method ClearToasts()
      modifies this`toasts
      ensures toasts == []
    {
      toasts := [];
    }

    /** `openModal(type, data = null)`: an omitted data argument is stored as null. */
    method OpenModal(modalType: string, data: Option<D>)
      modifies this`modal
      ensures modal == ModalState(true, Some(modalType), data)
    {
      modal := ModalState(true, Some(modalType), data);
    }

    method CloseModal()
      modifies this`modal
      ensures modal == ModalState(false, None, None)
    {
      modal := ModalState(false, None, None);
    }

    method ToggleSidebar()
      modifies this`sidebarOpen
      ensures sidebarOpen == !old(sidebarOpen)
    {
      sidebarOpen := !sidebarOpen;
    }

    method SetSidebarOpen(open: bool)
      modifies this`sidebarOpen
      ensures sidebarOpen == open
    {
      sidebarOpen := open;
    }

    method ToggleMobileMenu()
      modifies this`mobileMenuOpen
      ensures mobileMenuOpen == !old(mobileMenuOpen)
    {
      mobileMenuOpen := !mobileMenuOpen;
    }

    method SetMobileMenuOpen(open: bool)
      modifies this`mobileMenuOpen
      ensures mobileMenuOpen == open
    {
      mobileMenuOpen := open;
    }

    method SetIsScrolled(scrolled: bool)
      modifies this`isScrolled
      ensures isScrolled == scrolled
    {
      isScrolled := scrolled;
    }

    method SetGlobalLoading(loading: bool)
      modifies this`globalLoading
      ensures globalLoading == loading
    {
      globalLoading := loading;
    }
  }

  /** Toggling the sidebar or the mobile menu twice restores it, and touches nothing else. */
  method ToggleTwiceRestores<D>(store: UiStore<D>)
    modifies store
    ensures store.sidebarOpen == old(store.sidebarOpen) && store.mobileMenuOpen == old(store.mobileMenuOpen)
    ensures store.toasts == old(store.toasts) && store.modal == old(store.modal)
    ensures store.isScrolled == old(store.isScrolled) && store.globalLoading == old(store.globalLoading)
  {
    store.ToggleSidebar();
    store.ToggleSidebar();
    store.ToggleMobileMenu();
    store.ToggleMobileMenu();
  }

  /** A toast shown and then removed by its timer leaves a store's toast list as it was. */
  method ToastLifetime<D>(store: UiStore<D>, input: ToastInput, id: string)
    requires forall i :: 0 <= i < |store.toasts| ==> store.toasts[i].id != id
    modifies store
    ensures store.toasts == old(store.toasts)
    ensures store.modal == old(store.modal) && store.sidebarOpen == old(store.sidebarOpen)
  {
    store.AddToast(input, id);
    store.RemoveToast(id);
    AddThenRemoveRestores(old(store.toasts), input, id);
  }
}
