/** The filter panel of the room list (src/components/room-management/room-filters.tsx):
    a record of five optional strings, the update of one key, and the count of
    active filters that decides which buttons are offered. */
module RoomFilters {
  import opened Wrappers

  /** The keys of the filter record. */
  datatype FilterKey = Block | Floor | Type | Status | Occupancy

  const AllKeys: seq<FilterKey> := [Block, Floor, Type, Status, Occupancy]

  /** `{ block?, floor?, type?, status?, occupancy? }`: an absent key is `None`. */
  datatype Filters = Filters(
    block: Option<string>,
    floor: Option<string>,
    roomType: Option<string>,
    status: Option<string>,
    occupancy: Option<string>)

  /** The record the page starts with and returns to on "Clear all": `{}`. */
  const NoFilters := Filters(None, None, None, None, None)

  function Get(f: Filters, k: FilterKey): Option<string>
  {
    match k
    case Block => f.block
    case Floor => f.floor
    case Type => f.roomType
    case Status => f.status
    case Occupancy => f.occupancy
  }

  /** JavaScript truthiness of a filter value: present and not the empty string. */
  predicate IsSet(v: Option<string>)
  {
    v.Some? && v.value != ""
  }

  predicate IsActive(f: Filters, k: FilterKey)
  {
    IsSet(Get(f, k))
  }

  /** `handleFilterChange(key, value)`: `{ ...filters, [key]: value }`. */
  function HandleFilterChange(f: Filters, k: FilterKey, value: string): (r: Filters)
    ensures Get(r, k) == Some(value)
    ensures forall k' :: k' != k ==> Get(r, k') == Get(f, k')
  {
    match k
    case Block => f.(block := Some(value))
    case Floor => f.(floor := Some(value))
    case Type => f.(roomType := Some(value))
    case Status => f.(status := Some(value))
    case Occupancy => f.(occupancy := Some(value))
  }

  /** How many of the keys in `keys` are active in `f`. */
  function CountActive(f: Filters, keys: seq<FilterKey>): (n: nat)
    ensures n <= |keys|
    ensures n == 0 <==> forall k :: k in keys ==> !IsActive(f, k)
  {
    if keys == [] then 0
    else (if IsActive(f, keys[0]) then 1 else 0) + CountActive(f, keys[1..])
  }

  /** `Object.values(filters).filter(Boolean).length`. */
  function ActiveFiltersCount(f: Filters): (n: nat)
    ensures n <= 5
    ensures n == 0 <==> forall k :: !IsActive(f, k)
  {
    assert forall k :: k in AllKeys by {
      forall k ensures k in AllKeys {
        KeyListed(k);
      }
    }
    CountActive(f, AllKeys)
  }

  lemma KeyListed(k: FilterKey)
    ensures k in AllKeys
  {
    match k
    case Block => assert AllKeys[0] == k;
    case Floor => assert AllKeys[1] == k;
    case Type => assert AllKeys[2] == k;
    case Status => assert AllKeys[3] == k;
    case Occupancy => assert AllKeys[4] == k;
  }

  /** Changing one key changes the count by that key alone: it loses one if the
      key was active and gains one if the new value is non-empty. */
  lemma {:induction false} CountAfterChange(f: Filters, k: FilterKey, value: string, keys: seq<FilterKey>)
    requires forall i, j :: 0 <= i < j < |keys| ==> keys[i] != keys[j]
    ensures CountActive(HandleFilterChange(f, k, value), keys) + (if k in keys && IsActive(f, k) then 1 else 0)
         == CountActive(f, keys) + (if k in keys && value != "" then 1 else 0)
  {
    if keys != [] {
      CountAfterChange(f, k, value, keys[1..]);
      assert k in keys <==> k == keys[0] || k in keys[1..];
    }
  }

  /** Setting a key to "" makes it inactive and never raises the count. */
  lemma ClearingKeyLowersCount(f: Filters, k: FilterKey)
    ensures !IsActive(HandleFilterChange(f, k, ""), k)
    ensures ActiveFiltersCount(HandleFilterChange(f, k, "")) ==
            ActiveFiltersCount(f) - (if IsActive(f, k) then 1 else 0)
  {
    KeyListed(k);
    CountAfterChange(f, k, "", AllKeys);
  }

  /** Setting a key to a non-empty value makes it active. */
  lemma SettingKeyRaisesCount(f: Filters, k: FilterKey, value: string)
    requires value != ""
    ensures IsActive(HandleFilterChange(f, k, value), k)
    ensures ActiveFiltersCount(HandleFilterChange(f, k, value)) ==
            ActiveFiltersCount(f) + (if IsActive(f, k) then 0 else 1)
  {
    KeyListed(k);
    CountAfterChange(f, k, value, AllKeys);
  }

  /** The "Apply Filters" button: disabled while loading or with no active filter. */
  predicate ApplyDisabled(isLoading: bool, f: Filters)
  {
    isLoading || ActiveFiltersCount(f) == 0
  }

  /** The "Clear all" button and the "n active" badge are shown only with an active filter. */
  predicate ClearAllShown(f: Filters)
  {
    ActiveFiltersCount(f) > 0
  }

  /** Apply can be pressed exactly when nothing is loading and some key holds a
      non-empty value. */
  lemma ApplyEnabledIff(isLoading: bool, f: Filters)
    ensures !ApplyDisabled(isLoading, f) <==> !isLoading && exists k :: IsActive(f, k)
  {
  }

  /** "Clear all" yields `{}`: no key is active, the count is zero, so Apply is
      disabled and "Clear all" disappears. */
  lemma ClearedFilters(isLoading: bool)
    ensures ActiveFiltersCount(NoFilters) == 0
    ensures ApplyDisabled(isLoading, NoFilters) && !ClearAllShown(NoFilters)
  {
  }
}
