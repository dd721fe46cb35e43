/** The "Add Room" dialog (src/components/room-management/add-room-dialog.tsx):
    the form schema's field rules and the room that a valid form becomes. */
module AddRoomDialog {
  import Text
  import opened Wrappers
  import opened RoomManagement

  /** The form's fields, as the inputs deliver them (capacity and price
      already passed through `Number(...)`). */
  datatype FormValues = FormValues(
    roomNumber: string,
    block: string,
    floor: string,
    roomType: string,
    capacity: int,
    price: int,
    features: string)

  /** `defaultValues` of the form. */
  const DefaultValues := FormValues("", "", "", "Single", 1, 0, "")

  /** One failed rule of `formSchema`, named after its field. */
  datatype FieldError =
    | RoomNumberTooShort
    | BlockRequired
    | FloorRequired
    | InvalidType
    | CapacityTooSmall
    | NegativePrice

  /** The message shown under the offending field. For the type the Select
      offers only the four names, so the enum message (written here without
      the received value zod appends) cannot be reached from the dialog. */
  function Message(e: FieldError): string
  {
    match e
    case RoomNumberTooShort => "Room number must be at least 2 characters"
    case BlockRequired => "Block is required"
    case FloorRequired => "Floor is required"
    case InvalidType => "Invalid enum value. Expected 'Single' | 'Double' | 'Triple' | 'Quad'"
    case CapacityTooSmall => "Capacity must be at least 1"
    case NegativePrice => "Price must be a positive number"
  }

  /** `z.enum(["Single", "Double", "Triple", "Quad"])`. */
  function ParseType(s: string): (t: Option<RoomType>)
    ensures t.Some? ==> TypeName(t.value) == s
    ensures t.None? ==> forall rt :: TypeName(rt) != s
  {
    if s == "Single" then Some(Single)
    else if s == "Double" then Some(Double)
    else if s == "Triple" then Some(Triple)
    else if s == "Quad" then Some(Quad)
    else None
  }

  /** Every type name the form offers is accepted as that type. */
  lemma ParseTypeName(t: RoomType)
    ensures ParseType(TypeName(t)) == Some(t)
  {
  }

  /** The rules of `formSchema`, in field order. */
  const Rules: seq<FieldError> :=
    [RoomNumberTooShort, BlockRequired, FloorRequired, InvalidType, CapacityTooSmall, NegativePrice]

  /** `form` breaks the rule whose failure is `e`. */
  predicate Breaks(form: FormValues, e: FieldError)
  {
    match e
    case RoomNumberTooShort => |form.roomNumber| < 2
    case BlockRequired => |form.block| < 1
    case FloorRequired => |form.floor| < 1
    case InvalidType => ParseType(form.roomType).None?
    case CapacityTooSmall => form.capacity < 1
    case NegativePrice => form.price < 0
  }

  /** The form's error object: one message for every field whose rule `form` breaks. */
  function Errors(form: FormValues): (errors: map<FieldError, string>)
    ensures forall e :: e in errors <==> Breaks(form, e)
    ensures forall e :: e in errors ==> errors[e] == Message(e)
  {
    assert forall e :: e in Rules by {
      forall e ensures e in Rules {
        RuleListed(e);
      }
    }
    map e | e in Rules && Breaks(form, e) :: Message(e)
  }

  lemma RuleListed(e: FieldError)
    ensures e in Rules
  {
    match e
    case RoomNumberTooShort => assert Rules[0] == e;
    case BlockRequired => assert Rules[1] == e;
    case FloorRequired => assert Rules[2] == e;
    case InvalidType => assert Rules[3] == e;
    case CapacityTooSmall => assert Rules[4] == e;
    case NegativePrice => assert Rules[5] == e;
  }

  /** The form is accepted exactly when all six rules hold. */
  lemma AcceptedIff(form: FormValues)
    ensures Errors(form) == map[] <==>
      && |form.roomNumber| >= 2 && form.block != "" && form.floor != ""
      && form.roomType in {"Single", "Double", "Triple", "Quad"}
      && form.capacity >= 1 && form.price >= 0
  {
    var errs := Errors(form);
    if errs != map[] {
      var e :| e in errs;
    } else {
      assert !Breaks(form, RoomNumberTooShort) && !Breaks(form, BlockRequired);
      assert !Breaks(form, FloorRequired) && !Breaks(form, InvalidType);
      assert !Breaks(form, CapacityTooSmall) && !Breaks(form, NegativePrice);
    }
  }

  /** The untouched form is rejected: the room number, block and floor are empty. */
  lemma DefaultsRejected()
    ensures Errors(DefaultValues).Keys == {RoomNumberTooShort, BlockRequired, FloorRequired}
  {
    assert !Breaks(DefaultValues, InvalidType);
  }

  /** `data.features.split(",").map((f) => f.trim())`. */
  function SplitFeatures(input: string): (features: seq<string>)
    ensures |features| == Text.Occurrences(input, ',') + 1
    ensures forall k :: 0 <= k < |features| ==> ',' !in features[k]
  {
    var parts := Text.Split(input, ',');
    seq(|parts|, k requires 0 <= k < |parts| => Text.Trim(parts[k]))
  }

  /** No feature starts or ends with whitespace, and an empty input still gives
      one (empty) feature. */
  lemma SplitFeaturesTrimmed(input: string)
    ensures forall k :: 0 <= k < |SplitFeatures(input)| ==>
      var f := SplitFeatures(input)[k];
      f != [] ==> !Text.IsWhitespace(f[0]) && !Text.IsWhitespace(f[|f| - 1])
    ensures SplitFeatures("") == [""]
  {
    var parts := Text.Split(input, ',');
    forall k | 0 <= k < |parts|
      ensures var f := Text.Trim(parts[k]);
        f != [] ==> !Text.IsWhitespace(f[0]) && !Text.IsWhitespace(f[|f| - 1])
    {
      Text.TrimSpec(parts[k]);
    }
  }

  const NewRoomAmenities: seq<Amenity> := [
    Amenity("Air Conditioner", Working),
    Amenity("Study Lamp", Working),
    Amenity("Ceiling Fan", Working)]

  /** `onSubmit`, reached through `form.handleSubmit` only when the schema
      accepts the form; `id` stands for `Date.now().toString()`. */
  function Submit(form: FormValues, id: string): (r: Result<Room, map<FieldError, string>>)
    ensures r.Failure? <==> Errors(form) != map[]
    ensures r.Failure? ==> r.error == Errors(form)
    ensures r.Success? ==>
      var room := r.value;
      && room.id == id
      && room.number == form.roomNumber && room.block == form.block && room.floor == form.floor
      && TypeName(room.roomType) == form.roomType
      && room.capacity == form.capacity && room.price == form.price
      && room.occupied == 0 && room.status == Available
      && room.features == SplitFeatures(form.features)
      && room.maintenanceHistory == [] && room.currentOccupants == []
      && |room.amenities| == 3 && forall a :: a in room.amenities ==> a.status == Working
  {
    match ParseType(form.roomType)
    case None =>
      assert Breaks(form, InvalidType);
      Failure(Errors(form))
    case Some(roomType) =>
      if Errors(form) != map[] then Failure(Errors(form))
      else Success(Room(
        id,
        form.roomNumber,
        form.block,
        form.floor,
        roomType,
        form.capacity,
        0,
        form.price,
        SplitFeatures(form.features),
        Available,
        [],
        [],
        NewRoomAmenities))
  }

  /** An added room is never over-full and never Full: it has at least one
      bed and nobody in it. */
  lemma AddedRoomHasFreeBeds(form: FormValues, id: string)
    requires Submit(form, id).Success?
    ensures var room := Submit(form, id).value;
      0 == room.occupied < room.capacity && room.features != []
  {
    assert !Breaks(form, CapacityTooSmall);
  }

  /** The schema ties capacity to nothing but "at least 1": a Single room with
      four beds is accepted. */
  lemma CapacityIndependentOfType()
    ensures var form := FormValues("A101", "A", "1", "Single", 4, 0, "");
      && Submit(form, "1").Success?
      && Submit(form, "1").value.capacity != Capacity(Single)
  {
    var form := FormValues("A101", "A", "1", "Single", 4, 0, "");
    AcceptedIff(form);
  }
}
