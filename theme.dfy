/**
 * The theme store behind `ThemeProvider`: the module-level current theme,
 * the set of subscribed callbacks, `setThemeValue` notifying every one of
 * them, the initial theme chosen from the stored value and the system
 * preference, and the toggle.
 *
 * A callback is identified by a number; calling it is recorded by appending
 * its number to `calls`, in the order of the set (insertion order).
 */
module Theme {
  import Wrappers

  datatype Theme = Dark | Light

  type ListenerId = nat

  /** The value `toggleTheme` passes to `setThemeValue`. */
  function Toggled(t: Theme): (r: Theme)
    ensures r != t
  {
    if t == Dark then Light else Dark
  }

  lemma ToggleTwice(t: Theme)
    ensures Toggled(Toggled(t)) == t
  {
  }

  /** The stored value wins when it is `'dark'` or `'light'`; otherwise the
      system preference decides. */
  function ResolveInitial(stored: Wrappers.Option<string>, prefersDark: bool): (r: Theme)
    ensures stored == Wrappers.Some("dark") ==> r == Dark
    ensures stored == Wrappers.Some("light") ==> r == Light
    ensures stored != Wrappers.Some("dark") && stored != Wrappers.Some("light") ==>
              (r == Dark <==> prefersDark)
  {
    if stored == Wrappers.Some("dark") then Dark
    else if stored == Wrappers.Some("light") then Light
    else if prefersDark then Dark else Light
  }

  /** `getThemeServerSnapshot`: the server always renders dark. */
  function ServerSnapshot(): (r: Theme)
    ensures r == Dark
  {
    Dark
  }

  predicate NoDuplicates(s: seq<ListenerId>) {
    forall i, j :: 0 <= i < j < |s| ==> s[i] != s[j]
  }

  /** `listeners.add(callback)` on the insertion-ordered set. */
  function Added(s: seq<ListenerId>, x: ListenerId): (r: seq<ListenerId>)
    requires NoDuplicates(s)
    ensures NoDuplicates(r) && x in r
    ensures forall y :: y in r <==> y in s || y == x
    ensures x in s ==> r == s
    ensures x !in s ==> r == s + [x]
  {
    if x in s then s else s + [x]
  }

  /** `listeners.delete(callback)`: only `x` goes, the rest keep their order. */
  function Without(s: seq<ListenerId>, x: ListenerId): (r: seq<ListenerId>)
    ensures x !in r
    ensures forall y :: y != x ==> (y in r <==> y in s)
    ensures x !in s ==> r == s
    ensures |r| <= |s|
    decreases |s|
  {
    if s == [] then []
    else if s[|s| - 1] == x then Without(s[..|s| - 1], x)
    else
      assert s == s[..|s| - 1] + [s[|s| - 1]];
      Without(s[..|s| - 1], x) + [s[|s| - 1]]
  }

  lemma {:induction false} WithoutKeepsNoDuplicates(s: seq<ListenerId>, x: ListenerId)
    requires NoDuplicates(s)
    ensures NoDuplicates(Without(s, x))
    decreases |s|
  {
    if s != [] {
      var init := s[..|s| - 1];
      assert NoDuplicates(init);
      WithoutKeepsNoDuplicates(init, x);
      if s[|s| - 1] != x {
        assert s[|s| - 1] !in init;
      }
    }
  }

  /** Unsubscribing right after subscribing a new callback restores the set. */
  lemma SubscribeThenUnsubscribe(s: seq<ListenerId>, x: ListenerId)
    requires NoDuplicates(s) && x !in s
    ensures Without(Added(s, x), x) == s
  {
    assert (s + [x])[..|s|] == s;
  }

  /** The module store: `currentTheme`, `listeners` and the calls made so far. */
  class ThemeStore {
    var currentTheme: Theme
    var listeners: seq<ListenerId>
    var calls: seq<ListenerId>

    ghost predicate Valid()
      reads this
    {
      NoDuplicates(listeners)
    }

    /** The store starts dark with nobody subscribed. */
    constructor ()
      ensures Valid()
      ensures currentTheme == Dark && listeners == [] && calls == []
    {
      currentTheme := Dark;
      listeners := [];
      calls := [];
    }

    /** `getThemeSnapshot`. */
    function Snapshot(): (r: Theme)
      reads this
      ensures r == currentTheme
    {
      currentTheme
    }

    /** `subscribeTheme(callback)`. */
    method Subscribe(callback: ListenerId)
      requires Valid()
      modifies this`listeners
      ensures Valid()
      ensures listeners == Added(old(listeners), callback)
    {
      if callback !in listeners {
        listeners := listeners + [callback];
      }
    }

    /** The function `subscribeTheme` returns: removes only `callback`. */
    method Unsubscribe(callback: ListenerId)
      requires Valid()
      modifies this`listeners
      ensures Valid()
      ensures listeners == Without(old(listeners), callback)
    {
      WithoutKeepsNoDuplicates(listeners, callback);
      listeners := Without(listeners, callback);
    }

    /** `setThemeValue(next)`: the new theme, then every listener called once,
        in order. */
    method SetThemeValue(next: Theme)
      requires Valid()
      modifies this`currentTheme, this`calls
      ensures Valid()
      ensures currentTheme == next
      ensures calls == old(calls) + listeners
    {
      currentTheme := next;
      var i := 0;
      while i < |listeners|
        invariant 0 <= i <= |listeners|
        invariant currentTheme == next
        invariant calls == old(calls) + listeners[..i]
      {
        calls := calls + [listeners[i]];
        i := i + 1;
      }
    }
  }

  /** One mounted `ThemeProvider`: its `initialized` ref and the store. */
  class Provider {
    var initialized: bool
    const store: ThemeStore

    ghost predicate Valid()
      reads this, store
    {
      store.Valid()
    }

    constructor (store: ThemeStore)
      requires store.Valid()
      ensures Valid() && !initialized && this.store == store
    {
      initialized := false;
      this.store := store;
    }

    /** The mount effect: on its first run the theme is restored from the
        stored value and the system preference; later runs return at once. */
    method Initialize(stored: Wrappers.Option<string>, prefersDark: bool)
      requires Valid()
      modifies this`initialized, store`currentTheme, store`calls
      ensures Valid() && initialized
      ensures old(initialized) ==> unchanged(store)
      ensures !old(initialized) ==>
                store.currentTheme == ResolveInitial(stored, prefersDark) &&
                store.calls == old(store.calls) + store.listeners
    {
      if initialized {
        return;
      }
      initialized := true;
      store.SetThemeValue(ResolveInitial(stored, prefersDark));
    }

    /** `toggleTheme`: the opposite of the current theme. */
    method ToggleTheme()
      requires Valid()
      modifies store`currentTheme, store`calls
      ensures Valid()
      ensures store.currentTheme == Toggled(old(store.currentTheme))
      ensures store.calls == old(store.calls) + store.listeners
    {
      var next := if store.currentTheme == Dark then Light else Dark;
      store.SetThemeValue(next);
    }
  }

  /** Only the first mount effect counts: a second run with other inputs
      leaves the first resolution in place. */
  method InitializeTwice(stored1: Wrappers.Option<string>, prefersDark1: bool,
                         stored2: Wrappers.Option<string>, prefersDark2: bool) returns (theme: Theme)
    ensures theme == ResolveInitial(stored1, prefersDark1)
  {
    var store := new ThemeStore();
    var provider := new Provider(store);
    provider.Initialize(stored1, prefersDark1);
    provider.Initialize(stored2, prefersDark2);
    theme := store.Snapshot();
  }

  /** Toggling twice from the store's start gives dark again, and a
      subscribed callback hears both changes. */
  method ToggleTwiceFromStart(callback: ListenerId) returns (theme: Theme, heard: seq<ListenerId>)
    ensures theme == Dark
    ensures heard == [callback, callback]
  {
    var store := new ThemeStore();
    store.Subscribe(callback);
    var provider := new Provider(store);
    provider.ToggleTheme();
    provider.ToggleTheme();
    theme := store.Snapshot();
    heard := store.calls;
  }
}
