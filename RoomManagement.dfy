/** The room-management page (src/pages/room-management/index.tsx): the room
    record, the mock-room generator, the applied filters, the search box, and
    the page state that the handlers replace step by step. */
module RoomManagement {
  import Text
  import Seqs
  import opened Wrappers
  import opened RoomFilters

  // ------------------------------------------------------------------ the room

  datatype RoomType = Single | Double | Triple | Quad
  datatype RoomStatus = Available | Full | Maintenance
  datatype MaintenanceStatus = Completed | Pending | InProgress
  datatype AmenityStatus = Working | NotWorking | NeedsAttention

  datatype MaintenanceRecord = MaintenanceRecord(
    date: string, kind: string, description: string, cost: int, status: MaintenanceStatus)

  datatype Occupant = Occupant(
    id: string, name: string, registrationNumber: string,
    checkInDate: string, expectedCheckOut: string)

  datatype Amenity = Amenity(name: string, status: AmenityStatus)

  datatype Room = Room(
    id: string,
    number: string,
    block: string,
    floor: string,
    roomType: RoomType,
    capacity: int,
    occupied: int,
    price: int,
    features: seq<string>,
    status: RoomStatus,
    maintenanceHistory: seq<MaintenanceRecord>,
    currentOccupants: seq<Occupant>,
    amenities: seq<Amenity>)

  /** The string the page compares and displays for a room type. */
  function TypeName(t: RoomType): string
  {
    match t
    case Single => "Single"
    case Double => "Double"
    case Triple => "Triple"
    case Quad => "Quad"
  }

  function StatusName(s: RoomStatus): string
  {
    match s
    case Available => "Available"
    case Full => "Full"
    case Maintenance => "Maintenance"
  }

  // --------------------------------------------------------- the mock generator

  /** A value of `Math.random()`, the fraction num/den in [0, 1). */
  datatype Draw = Draw(num: nat, den: nat)
  type Random = d: Draw | d.num < d.den witness Draw(0, 1)

  /** `Math.floor(Math.random() * n)`: an index below `n`. */
  function Scale(r: Random, n: nat): (k: nat)
    ensures n > 0 ==> k < n
  {
    var k := r.num * n / r.den;
    MulMonotone(r.num, r.den, n);
    MulMonotone(n, k, r.den);
    k
  }

  lemma MulMonotone(a: nat, b: nat, c: nat)
    ensures a <= b ==> a * c <= b * c
    ensures a < b && c > 0 ==> a * c < b * c
  {
  }

  /** `Math.random() > tenths / 10`. */
  predicate Exceeds(r: Random, tenths: nat)
  {
    10 * r.num > tenths * r.den
  }

  /** The seven `Math.random()` values one generated room consumes, in the
      order the generator draws them. */
  datatype RoomDraws = RoomDraws(
    typeDraw: Random, occupiedDraw: Random, blockDraw: Random, floorDraw: Random,
    priceDraw: Random, featuresDraw: Random, maintenanceDraw: Random)

  const Blocks: seq<string> := ["A", "B", "C"]
  const Floors: seq<string> := ["1", "2", "3"]
  const Types: seq<RoomType> := [Single, Double, Triple, Quad]
  const FeatureNames: seq<string> :=
    ["Air Conditioning", "Private Bathroom", "Study Table", "Wardrobe", "Reading Lamp"]
  const GeneratedAmenities: seq<Amenity> := [
    Amenity("Air Conditioner", Working),
    Amenity("Study Lamp", Working),
    Amenity("Ceiling Fan", NeedsAttention)]

  /** Beds in a room of each type. */
  function Capacity(t: RoomType): nat
  {
    match t
    case Single => 1
    case Double => 2
    case Triple => 3
    case Quad => 4
  }

  /** The two-digit, zero-padded position `(i % 20) + 1` that ends a room number. */
  function NumberSuffix(i: nat): (s: string)
    ensures |s| == 2 && Text.IsDigits(s)
    ensures Text.DecimalValue(s) == i % 20 + 1
  {
    Text.PaddedValue(i % 20 + 1, 2);
    Text.PadZero(Text.NatToString(i % 20 + 1), 2)
  }

  /** What every generated room satisfies. */
  predicate GeneratedRoomOk(room: Room)
  {
    && room.capacity == Capacity(room.roomType)
    && 0 <= room.occupied <= room.capacity
    && (room.status == Full <==> room.occupied >= room.capacity)
  }

  /** `(i + 1).toString()`, the id of the `i`-th generated room. */
  function RoomId(i: nat): (id: string)
    ensures Text.IsDigits(id) && Text.DecimalValue(id) == i + 1
    ensures id[0] != '0'
  {
    Text.NatToStringRoundTrip(i + 1);
    Text.NatToString(i + 1)
  }

  /** `${block}${floor}${((i % 20) + 1).toString().padStart(2, "0")}`. */
  function RoomNumber(block: string, floor: string, i: nat): (number: string)
    ensures |number| == |block| + |floor| + 2
    ensures number[..|block| + |floor|] == block + floor
    ensures number[|block| + |floor|..] == NumberSuffix(i)
    ensures Text.IsDigits(number[|block| + |floor|..])
    ensures Text.DecimalValue(number[|block| + |floor|..]) == i % 20 + 1
  {
    var number := block + floor + NumberSuffix(i);
    assert number[|block| + |floor|..] == NumberSuffix(i);
    number
  }

  /** The status the generator gives a room: Full when no bed is free, else
      Maintenance when the status draw exceeds 0.9, else Available. */
  function GeneratedStatus(occupied: nat, capacity: nat, maintenanceDraw: Random): (s: RoomStatus)
    ensures s == Full <==> occupied >= capacity
    ensures occupied < capacity ==> (s == Maintenance <==> Exceeds(maintenanceDraw, 9))
  {
    if occupied >= capacity then Full
    else if Exceeds(maintenanceDraw, 9) then Maintenance
    else Available
  }

  /** `[...five features].slice(0, k + 1)`: the first `k + 1` features, never none. */
  function GeneratedFeatures(k: nat): (features: seq<string>)
    requires k < 5
    ensures |features| == k + 1 && features == FeatureNames[..|features|]
  {
    assert |FeatureNames| == 5;
    FeatureNames[..k + 1]
  }

  /** `types[Math.floor(Math.random() * types.length)]`. */
  function GeneratedType(d: RoomDraws): RoomType
  {
    Types[Scale(d.typeDraw, |Types|)]
  }

  /** `Math.floor(Math.random() * (capacity + 1))`. */
  function GeneratedOccupied(d: RoomDraws, capacity: nat): (occupied: nat)
    ensures occupied <= capacity
  {
    Scale(d.occupiedDraw, capacity + 1)
  }

  /** `blocks[Math.floor(Math.random() * blocks.length)]`. */
  function GeneratedBlock(d: RoomDraws): (block: string)
    ensures block in Blocks && |block| == 1
  {
    Blocks[Scale(d.blockDraw, |Blocks|)]
  }

  /** `floors[Math.floor(Math.random() * floors.length)]`. */
  function GeneratedFloor(d: RoomDraws): (floor: string)
    ensures floor in Floors && |floor| == 1
  {
    Floors[Scale(d.floorDraw, |Floors|)]
  }

  /** `500000 + Math.floor(Math.random() * 5) * 100000`. */
  function GeneratedPrice(d: RoomDraws): (price: nat)
    ensures 500000 <= price <= 900000
  {
    500000 + Scale(d.priceDraw, 5) * 100000
  }

  /** The `i`-th room of `generateMockRooms`. */
  function GenerateRoom(i: nat, d: RoomDraws): (room: Room)
    ensures GeneratedRoomOk(room)
    ensures room.block in Blocks && room.floor in Floors
    ensures Text.IsDigits(room.id) && Text.DecimalValue(room.id) == i + 1
    ensures room.number == RoomNumber(room.block, room.floor, i)
    ensures 500000 <= room.price <= 900000
    ensures 1 <= |room.features| <= 5 && room.features == FeatureNames[..|room.features|]
    ensures room.maintenanceHistory == [] && room.currentOccupants == []
  {
    var roomType := GeneratedType(d);
    var capacity := Capacity(roomType);
    var occupied := GeneratedOccupied(d, capacity);
    var block := GeneratedBlock(d);
    var floor := GeneratedFloor(d);
    Room(
      RoomId(i),
      RoomNumber(block, floor, i),
      block,
      floor,
      roomType,
      capacity,
      occupied,
      GeneratedPrice(d),
      GeneratedFeatures(Scale(d.featuresDraw, 5)),
      GeneratedStatus(occupied, capacity, d.maintenanceDraw),
      [],
      [],
      GeneratedAmenities)
  }

  /** A generated room number is four characters: the block letter, the floor
      digit, and two digits denoting `(i % 20) + 1`, so they lie in "01".."20". */
  lemma GeneratedNumber(i: nat, d: RoomDraws)
    ensures var room := GenerateRoom(i, d);
      && |room.number| == 4 && room.number[..2] == room.block + room.floor
      && Text.IsDigits(room.number[2..]) && 1 <= Text.DecimalValue(room.number[2..]) <= 20
  {
    var room := GenerateRoom(i, d);
    BlockAndFloorLength(room.block, room.floor);
    assert Text.DecimalValue(room.number[2..]) == i % 20 + 1;
  }

  lemma BlockAndFloorLength(block: string, floor: string)
    requires block in Blocks && floor in Floors
    ensures |block| == 1 && |floor| == 1
  {
  }

  /** `generateMockRooms(count)` with the random values supplied, one
      `RoomDraws` per room. */
  function GenerateMockRooms(draws: seq<RoomDraws>): (rooms: seq<Room>)
    ensures |rooms| == |draws|
    ensures forall k :: 0 <= k < |rooms| ==> GeneratedRoomOk(rooms[k])
    ensures forall k :: 0 <= k < |rooms| ==>
      Text.IsDigits(rooms[k].id) && Text.DecimalValue(rooms[k].id) == k + 1
  {
    seq(|draws|, k requires 0 <= k < |draws| => GenerateRoom(k, draws[k]))
  }

  /** The generated ids are pairwise different. */
  lemma GeneratedIdsDistinct(draws: seq<RoomDraws>, j: nat, k: nat)
    requires j < k < |draws|
    ensures GenerateMockRooms(draws)[j].id != GenerateMockRooms(draws)[k].id
  {
  }

  // ------------------------------------------------------------- applied filter

  /** The occupancy criterion as written: it rejects a room for "empty" when
      occupied > 0, for "partial" when it is 0 or at capacity, and for "full"
      when it is not at capacity. */
  predicate OccupancyAdmits(value: string, room: Room)
  {
    if value == "empty" && room.occupied > 0 then false
    else if value == "partial" && (room.occupied == 0 || room.occupied == room.capacity) then false
    else if value == "full" && room.occupied != room.capacity then false
    else true
  }

  /** The predicate `handleApplyFilters` passes to `mockRooms.filter`, with its
      early returns in order. */
  predicate MatchesFilters(f: Filters, room: Room)
  {
    if IsSet(f.block) && room.block != f.block.value then false
    else if IsSet(f.floor) && room.floor != f.floor.value then false
    else if IsSet(f.roomType) && TypeName(room.roomType) != f.roomType.value then false
    else if IsSet(f.status) && StatusName(room.status) != f.status.value then false
    else if IsSet(f.occupancy) then OccupancyAdmits(f.occupancy.value, room)
    else true
  }

  /** What one set filter key demands of a room, stated on its own. */
  predicate Criterion(k: FilterKey, value: string, room: Room)
  {
    match k
    case Block => room.block == value
    case Floor => room.floor == value
    case Type => TypeName(room.roomType) == value
    case Status => StatusName(room.status) == value
    case Occupancy =>
      if value == "empty" then room.occupied == 0
      else if value == "partial" then room.occupied != 0 && room.occupied != room.capacity
      else if value == "full" then room.occupied == room.capacity
      else true
  }

  /** A room passes the filters exactly when it meets the criterion of every
      set key; unset and empty keys impose nothing. */
  lemma MatchesFiltersIff(f: Filters, room: Room)
    requires room.occupied >= 0
    ensures MatchesFilters(f, room) <==>
      forall k :: IsActive(f, k) ==> Criterion(k, Get(f, k).value, room)
  {
    if MatchesFilters(f, room) {
      forall k | IsActive(f, k)
        ensures Criterion(k, Get(f, k).value, room)
      {
        match k
        case Block =>
        case Floor =>
        case Type =>
        case Status =>
        case Occupancy =>
      }
    } else {
      if IsSet(f.block) && room.block != f.block.value {
        assert !Criterion(Block, Get(f, Block).value, room);
      } else if IsSet(f.floor) && room.floor != f.floor.value {
        assert !Criterion(Floor, Get(f, Floor).value, room);
      } else if IsSet(f.roomType) && TypeName(room.roomType) != f.roomType.value {
        assert !Criterion(Type, Get(f, Type).value, room);
      } else if IsSet(f.status) && StatusName(room.status) != f.status.value {
        assert !Criterion(Status, Get(f, Status).value, room);
      } else {
        assert !Criterion(Occupancy, Get(f, Occupancy).value, room);
      }
    }
  }

  /** `mockRooms.filter(...)`: the rooms of the ORIGINAL list that pass, in order. */
  function ApplyFilters(f: Filters, mockRooms: seq<Room>): (r: seq<Room>)
    ensures Seqs.IsSubsequence(r, mockRooms)
    ensures forall room :: room in r <==> room in mockRooms && MatchesFilters(f, room)
    ensures forall room :: multiset(r)[room] == if MatchesFilters(f, room) then multiset(mockRooms)[room] else 0
    ensures (forall k :: !IsActive(f, k)) ==> r == mockRooms
  {
    assert (forall k :: !IsActive(f, k)) ==> forall room :: MatchesFilters(f, room) by {
      if forall k :: !IsActive(f, k) {
        assert !IsActive(f, Block) && !IsActive(f, Floor) && !IsActive(f, Type);
        assert !IsActive(f, Status) && !IsActive(f, Occupancy);
      }
    }
    Seqs.Filter(mockRooms, room => MatchesFilters(f, room))
  }

  // ------------------------------------------------------------------- search

  /** A room matches a (lower-cased) search term through its number, type or status. */
  predicate MatchesSearch(room: Room, term: string)
  {
    || Text.Contains(Text.ToLower(room.number), term)
    || Text.Contains(Text.ToLower(TypeName(room.roomType)), term)
    || Text.Contains(Text.ToLower(StatusName(room.status)), term)
  }

  /** The rows on screen: the rooms that match the search term, in order. */
  function SearchRooms(rooms: seq<Room>, term: string): (r: seq<Room>)
    ensures Seqs.IsSubsequence(r, rooms)
    ensures forall room :: room in r <==> room in rooms && MatchesSearch(room, term)
    ensures forall room :: multiset(r)[room] == if MatchesSearch(room, term) then multiset(rooms)[room] else 0
    ensures term == "" ==> r == rooms
  {
    Seqs.Filter(rooms, room => MatchesSearch(room, term))
  }

  function Ids(rooms: seq<Room>): seq<string>
  {
    seq(|rooms|, k requires 0 <= k < |rooms| => rooms[k].id)
  }

  // ------------------------------------------------------- header check box

  /** The header box as written: checked when the selection is as long as the
      list on screen and that list is not empty. */
  predicate HeaderCheckedAsWritten(selected: seq<string>, shown: seq<Room>)
  {
    |selected| == |shown| && |shown| > 0
  }

  /** What the header box is meant to show: every room on screen is selected. */
  predicate AllShownSelected(selected: seq<string>, shown: seq<Room>)
  {
    |shown| > 0 && forall room :: room in shown ==> room.id in selected
  }

  const ShownRoom := Room("2", "A102", "A", "1", Single, 1, 0, 500000, [], Available, [], [], [])

  /** After room 1 is selected and a search leaves only room 2 on screen, the
      header box as written shows "all selected" although room 2 is not. */
  lemma HeaderCheckedWithStaleSelection()
    ensures HeaderCheckedAsWritten(["1"], [ShownRoom])
    ensures !AllShownSelected(["1"], [ShownRoom])
  {
    assert ShownRoom in [ShownRoom];
  }

  /** The length test is right whenever the selection holds only ids on screen,
      each once, and the rooms on screen have different ids. */
  lemma HeaderAgreesWhenSelectionCurrent(selected: seq<string>, shown: seq<Room>)
    ensures Seqs.Distinct(selected) && Seqs.Distinct(Ids(shown))
      && (forall id :: id in selected ==> id in Ids(shown))
      ==> (HeaderCheckedAsWritten(selected, shown) <==> AllShownSelected(selected, shown))
  {
    if Seqs.Distinct(selected) && Seqs.Distinct(Ids(shown)) && forall id :: id in selected ==> id in Ids(shown) {
      Seqs.SameLengthIffCovers(selected, Ids(shown));
      if forall id :: id in Ids(shown) ==> id in selected {
        forall room | room in shown
          ensures room.id in selected
        {
          var k :| 0 <= k < |shown| && shown[k] == room;
          assert Ids(shown)[k] == room.id;
        }
      }
      if AllShownSelected(selected, shown) {
        forall id | id in Ids(shown)
          ensures id in selected
        {
          var k :| 0 <= k < |Ids(shown)| && Ids(shown)[k] == id;
          assert shown[k] in shown;
        }
      }
    }
  }

  // ---------------------------------------------------------------- page state

  /** The state the `RoomManagement` component keeps with `useState`. */
  class RoomManagementPage {
    /** `mockRooms`, generated once when the module loads. */
    const mockRooms: seq<Room>
    var rooms: seq<Room>
    var searchTerm: string
    var selectedRooms: seq<string>
    var filters: Filters
    var isLoading: bool

    ghost predicate Valid()
      reads this
    {
      && Text.IsLower(searchTerm)
      && forall room :: room in mockRooms ==> GeneratedRoomOk(room)
    }

    /** The rows on screen. */
    function FilteredRooms(): seq<Room>
      reads this
    {
      SearchRooms(rooms, searchTerm)
    }

    /** The header check box, as it is meant to read: every room on screen is
        selected. It agrees with the length test as written
        (`HeaderCheckedAsWritten`) whenever the selection holds only ids on
        screen, each once. */
    function HeaderChecked(): (checked: bool)
      reads this
      ensures Seqs.Distinct(selectedRooms) && Seqs.Distinct(Ids(FilteredRooms()))
        && (forall id :: id in selectedRooms ==> id in Ids(FilteredRooms()))
        ==> (checked <==> HeaderCheckedAsWritten(selectedRooms, FilteredRooms()))
    {
      HeaderAgreesWhenSelectionCurrent(selectedRooms, FilteredRooms());
      AllShownSelected(selectedRooms, FilteredRooms())
    }

    /** The bulk-action menu appears once something is selected. */
    function ShowsBulkActions(): bool
      reads this
    {
      |selectedRooms| > 0
    }

    constructor (draws: seq<RoomDraws>)
      requires |draws| == 50
      ensures Valid()
      ensures mockRooms == GenerateMockRooms(draws) && rooms == mockRooms
      ensures searchTerm == "" && selectedRooms == [] && filters == NoFilters && !isLoading
    {
      mockRooms := GenerateMockRooms(draws);
      rooms := GenerateMockRooms(draws);
      searchTerm := "";
      selectedRooms := [];
      filters := NoFilters;
      isLoading := false;
    }

    /** `handleSearch`: the term is stored lower-cased. */
    method HandleSearch(value: string)
      requires Valid()
      modifies this`searchTerm
      ensures Valid()
      ensures searchTerm == Text.ToLower(value)
    {
      searchTerm := Text.ToLower(value);
    }

    /** `handleLoadData`: a fresh list of 40 to 59 generated rooms. */
    method HandleLoadData(countDraw: Random, draws: seq<RoomDraws>)
      requires Valid()
      requires |draws| == Scale(countDraw, 20) + 40
      modifies this`rooms, this`isLoading
      ensures Valid()
      ensures rooms == GenerateMockRooms(draws) && !isLoading
      ensures 40 <= |rooms| < 60
    {
      isLoading := true;
      rooms := GenerateMockRooms(draws);
      isLoading := false;
    }

    /** `onFilterChange`. */
    method SetFilters(f: Filters)
      requires Valid()
      modifies this`filters
      ensures Valid() && filters == f
    {
      filters := f;
    }

    /** `onFilterClear`: back to `{}`. */
    method ClearFilters()
      requires Valid()
      modifies this`filters
      ensures Valid() && filters == NoFilters && ActiveFiltersCount(filters) == 0
    {
      filters := NoFilters;
    }

    /** `handleApplyFilters`: the list becomes the matching rooms of `mockRooms`,
        whatever the list held before. */
    method HandleApplyFilters()
      requires Valid()
      modifies this`rooms, this`isLoading
      ensures Valid()
      ensures rooms == ApplyFilters(filters, mockRooms) && !isLoading
      ensures forall room :: room in rooms ==> room in mockRooms && GeneratedRoomOk(room)
    {
      isLoading := true;
      rooms := ApplyFilters(filters, mockRooms);
      isLoading := false;
    }

    /** `handleBulkAction`: once the action completes the selection is empty. */
    method HandleBulkAction(action: string)
      requires Valid()
      modifies this`selectedRooms, this`isLoading
      ensures Valid()
      ensures selectedRooms == [] && !isLoading && !ShowsBulkActions()
    {
      isLoading := true;
      selectedRooms := [];
      isLoading := false;
    }

    /** `onRoomAdded`: the new room goes at the end. */
    method OnRoomAdded(room: Room)
      requires Valid()
      modifies this`rooms
      ensures Valid()
      ensures rooms == old(rooms) + [room]
      ensures rooms[..|old(rooms)|] == old(rooms) && rooms[|rooms| - 1] == room
    {
      rooms := rooms + [room];
    }

    /** A row's box checked: its id is appended. */
    method CheckRoom(id: string)
      requires Valid()
      modifies this`selectedRooms
      ensures Valid()
      ensures selectedRooms == old(selectedRooms) + [id]
      ensures Seqs.Distinct(old(selectedRooms)) && id !in old(selectedRooms) ==> Seqs.Distinct(selectedRooms)
    {
      selectedRooms := selectedRooms + [id];
    }

    /** A row's box unchecked: every occurrence of its id goes, the rest keep their order. */
    method UncheckRoom(id: string)
      requires Valid()
      modifies this`selectedRooms
      ensures Valid()
      ensures selectedRooms == Seqs.Remove(old(selectedRooms), id)
      ensures id !in selectedRooms && Seqs.IsSubsequence(selectedRooms, old(selectedRooms))
      ensures forall other :: other != id ==> (other in selectedRooms <==> other in old(selectedRooms))
    {
      selectedRooms := Seqs.Remove(selectedRooms, id);
    }

    /** The header box: checked selects every room on screen, unchecked clears. */
    method HeaderCheckedChange(checked: bool)
      requires Valid()
      modifies this`selectedRooms
      ensures Valid()
      ensures selectedRooms == if checked then Ids(FilteredRooms()) else []
      ensures checked && FilteredRooms() != [] ==> HeaderChecked()
      ensures !checked ==> !HeaderChecked() && !ShowsBulkActions()
    {
      if checked {
        selectedRooms := Ids(SearchRooms(rooms, searchTerm));
        forall room | room in FilteredRooms()
          ensures room.id in selectedRooms
        {
          var k :| 0 <= k < |FilteredRooms()| && FilteredRooms()[k] == room;
          assert selectedRooms[k] == room.id;
        }
      } else {
        selectedRooms := [];
        if FilteredRooms() != [] {
          assert FilteredRooms()[0] in FilteredRooms();
        }
      }
    }
  }
}
