/** The bulk-actions menu of the room list (src/components/room-management/bulk-actions.tsx):
    maintenance and clear ask for confirmation in a dialog that states how many
    rooms are selected; export runs at once. */
module BulkActions {
  import Text
  import opened Wrappers

  /** The pending `currentAction`: its `type`, and the dialog's title and description. */
  datatype Action = Action(kind: string, title: string, description: string)

  /** `prefix + n + suffix`, a template literal with one number in it. */
  function Embed(prefix: string, n: nat, suffix: string): string
  {
    prefix + Text.NatToString(n) + suffix
  }

  /** The number can be read back from the text, right after the prefix. */
  lemma EmbedReadBack(prefix: string, n: nat, suffix: string)
    ensures var s := Embed(prefix, n, suffix);
      var digits := s[|prefix|..|s| - |suffix|];
      && Text.OccursAt(s, Text.NatToString(n), |prefix|)
      && Text.IsDigits(digits) && Text.DecimalValue(digits) == n
  {
    var s := Embed(prefix, n, suffix);
    assert s[|prefix|..|s| - |suffix|] == Text.NatToString(n);
    Text.NatToStringRoundTrip(n);
  }

  /** Different numbers give different texts. */
  lemma EmbedInjective(prefix: string, n: nat, m: nat, suffix: string)
    ensures Embed(prefix, n, suffix) == Embed(prefix, m, suffix) ==> n == m
  {
    if Embed(prefix, n, suffix) == Embed(prefix, m, suffix) {
      EmbedReadBack(prefix, n, suffix);
      EmbedReadBack(prefix, m, suffix);
    }
  }

  /** The `'maintenance'` case, for `count` selected rooms. */
  function MaintenanceAction(count: nat): (a: Action)
  {
    Action("maintenance", "Mark Rooms for Maintenance",
      Embed("Are you sure you want to mark ", count,
        " room(s) for maintenance? This will temporarily make them unavailable for allocation."))
  }

  /** The `'clear'` case, for `count` selected rooms. */
  function ClearAction(count: nat): (a: Action)
  {
    Action("clear", "Clear Room Allocation",
      Embed("Are you sure you want to clear the allocation for ", count,
        " room(s)? This will remove all current occupants."))
  }

  /** The confirmation text tells the selection's size exactly: it contains the
      count, and two different counts never give the same text. */
  lemma DescriptionStatesCount(count: nat, other: nat)
    ensures Text.Contains(MaintenanceAction(count).description, Text.NatToString(count))
    ensures Text.Contains(ClearAction(count).description, Text.NatToString(count))
    ensures MaintenanceAction(count).description == MaintenanceAction(other).description ==> count == other
    ensures ClearAction(count).description == ClearAction(other).description ==> count == other
  {
    var mp := "Are you sure you want to mark ";
    var ms := " room(s) for maintenance? This will temporarily make them unavailable for allocation.";
    var cp := "Are you sure you want to clear the allocation for ";
    var cs := " room(s)? This will remove all current occupants.";
    EmbedReadBack(mp, count, ms);
    Text.ContainsAt(MaintenanceAction(count).description, Text.NatToString(count), |mp|);
    EmbedReadBack(cp, count, cs);
    Text.ContainsAt(ClearAction(count).description, Text.NatToString(count), |cp|);
    EmbedInjective(mp, count, other, ms);
    EmbedInjective(cp, count, other, cs);
  }

  /** The menu's state for a fixed selection of rooms. The page mounts the
      menu only while some room is selected (src/pages/room-management/index.tsx:245),
      so it is unmounted whenever the selection empties; the model takes the
      selection as fixed for one mounted lifetime. */
  class BulkActionsMenu {
    const selectedRooms: seq<string>
    var isActionDialogOpen: bool
    var currentAction: Option<Action>
    var isLoading: bool

    /** Only a maintenance or clear action for the current selection is ever pending. */
    ghost predicate Valid()
      reads this
    {
      currentAction.Some? ==>
        || currentAction.value == MaintenanceAction(|selectedRooms|)
        || currentAction.value == ClearAction(|selectedRooms|)
    }

    constructor (selectedRooms: seq<string>)
      ensures Valid()
      ensures this.selectedRooms == selectedRooms
      ensures !isActionDialogOpen && currentAction == None && !isLoading
    {
      this.selectedRooms := selectedRooms;
      isActionDialogOpen := false;
      currentAction := None;
      isLoading := false;
    }

    /** `handleAction(action)`; `succeeds` says whether the awaited `onAction`
        resolves, and `calls` lists the actions passed to it. Export does not
        reset the loading flag when `onAction` rejects; an unknown action opens
        the dialog on whatever action was pending. */
    method HandleAction(action: string, succeeds: bool) returns (calls: seq<string>)
      requires Valid()
      modifies this`isActionDialogOpen, this`currentAction, this`isLoading
      ensures Valid()
      ensures action == "maintenance" ==>
        && currentAction == Some(MaintenanceAction(|selectedRooms|))
        && isActionDialogOpen && isLoading == old(isLoading) && calls == []
      ensures action == "clear" ==>
        && currentAction == Some(ClearAction(|selectedRooms|))
        && isActionDialogOpen && isLoading == old(isLoading) && calls == []
      ensures action == "export" ==>
        && calls == ["export"] && isLoading == !succeeds
        && currentAction == old(currentAction) && isActionDialogOpen == old(isActionDialogOpen)
      ensures action !in {"maintenance", "clear", "export"} ==>
        && calls == [] && isActionDialogOpen
        && currentAction == old(currentAction) && isLoading == old(isLoading)
    {
      calls := [];
      if action == "maintenance" {
        currentAction := Some(MaintenanceAction(|selectedRooms|));
      } else if action == "clear" {
        currentAction := Some(ClearAction(|selectedRooms|));
      } else if action == "export" {
        isLoading := true;
        calls := [action];
        if succeeds {
          isLoading := false;
        }
        return;
      }
      isActionDialogOpen := true;
    }

    /** `handleConfirm`: without a pending action nothing happens; otherwise
        the pending action's type goes to `onAction`, and only when that
        resolves is the loading flag cleared and the dialog closed. Confirming
        never exports. */
    method HandleConfirm(succeeds: bool) returns (calls: seq<string>)
      requires Valid()
      modifies this`isActionDialogOpen, this`isLoading
      ensures Valid()
      ensures currentAction == old(currentAction)
      ensures currentAction == None ==>
        calls == [] && isLoading == old(isLoading) && isActionDialogOpen == old(isActionDialogOpen)
      ensures currentAction.Some? ==>
        && calls == [currentAction.value.kind]
        && isLoading == !succeeds
        && isActionDialogOpen == (old(isActionDialogOpen) && !succeeds)
      ensures forall a :: a in calls ==> a == "maintenance" || a == "clear"
    {
      calls := [];
      if currentAction == None {
        return;
      }
      isLoading := true;
      calls := [currentAction.value.kind];
      if succeeds {
        isLoading := false;
        isActionDialogOpen := false;
      }
    }

    /** The dialog's `onOpenChange`, also reached through Cancel. */
    method SetDialogOpen(open: bool)
      requires Valid()
      modifies this`isActionDialogOpen
      ensures Valid() && isActionDialogOpen == open
    {
      isActionDialogOpen := open;
    }
  }
}
