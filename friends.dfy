/** The synchronous actions of the friends store, src/stores/friendsStore.ts:
    the in-place status update of a friend, the popup toggle and the
    selection. A friend is an object: the list and `selectedFriend` may
    share it, and an update through one is seen through the other. */
module Friends {

  import opened Wrappers

  datatype Presence = Online | Offline | InGame

  /** `interface Friend` */
  class Friend {
    const id: string
    const username: string
    const profilePic: string
    const elo: int
    var status: Presence
    var currentLobby: Option<string>

    constructor (id: string, username: string, profilePic: string, elo: int, status: Presence, currentLobby: Option<string>)
      ensures this.id == id && this.username == username && this.profilePic == profilePic && this.elo == elo
      ensures this.status == status && this.currentLobby == currentLobby
    {
      this.id := id;
      this.username := username;
      this.profilePic := profilePic;
      this.elo := elo;
      this.status := status;
      this.currentLobby := currentLobby;
    }
  }

  class FriendsStore {
    var friends: seq<Friend>
    var isPopupOpen: bool
    var selectedFriend: Friend?

    /** The store's initial state around a list the server returned. */
    constructor (friends: seq<Friend>)
      ensures this.friends == friends && !isPopupOpen && selectedFriend == null
    {
      this.friends := friends;
      isPopupOpen := false;
      selectedFriend := null;
    }

    /** `friends.find(f => f.id === userId)`, as the index of the first
        friend with that id. */
    method FindFriend(userId: string) returns (found: Option<nat>)
      ensures found.Some? ==>
        && found.value < |friends| && friends[found.value].id == userId
        && forall k :: 0 <= k < found.value ==> friends[k].id != userId
      ensures found.None? ==> forall k :: 0 <= k < |friends| ==> friends[k].id != userId
    {
      var i := 0;
      while i < |friends|
        invariant 0 <= i <= |friends|
        invariant forall k :: 0 <= k < i ==> friends[k].id != userId
      {
        if friends[i].id == userId {
          return Some(i);
        }
        i := i + 1;
      }
      return None;
    }

    /** `updateFriendStatus`: set the status and the lobby of the first
        friend with the id, the lobby also when none is given. The list
        itself, and every other friend object, stay as they were. */
    method UpdateFriendStatus(userId: string, status: Presence, lobbyId: Option<string>)
      modifies friends
      ensures (forall k :: 0 <= k < |friends| ==> friends[k].id != userId) ==>
        forall k :: 0 <= k < |friends| ==>
          friends[k].status == old(friends[k].status) && friends[k].currentLobby == old(friends[k].currentLobby)
      ensures forall i :: 0 <= i < |friends| && friends[i].id == userId
                          && (forall k :: 0 <= k < i ==> friends[k].id != userId) ==>
        && friends[i].status == status && friends[i].currentLobby == lobbyId
        && forall k :: 0 <= k < |friends| && friends[k] != friends[i] ==>
             friends[k].status == old(friends[k].status) && friends[k].currentLobby == old(friends[k].currentLobby)
    {
      var found := FindFriend(userId);
      if found.Some? {
        var friend := friends[found.value];
        friend.status := status;
        friend.currentLobby := lobbyId;
      }
    }

    /** `togglePopup` */
    method TogglePopup()
      modifies this
      ensures isPopupOpen == !old(isPopupOpen)
      ensures friends == old(friends) && selectedFriend == old(selectedFriend)
    {
      isPopupOpen := !isPopupOpen;
    }

    /** `selectFriend`, null included. */
    method SelectFriend(friend: Friend?)
      modifies this
      ensures selectedFriend == friend
      ensures friends == old(friends) && isPopupOpen == old(isPopupOpen)
    {
      selectedFriend := friend;
    }
  }

  /** Toggling the popup twice leaves it as it was. */
  method ToggleTwiceRestores(friends: seq<Friend>, startOpen: bool) returns (before: bool, after: bool)
    ensures before == startOpen && after == startOpen
  {
    var store := new FriendsStore(friends);
    if startOpen {
      store.TogglePopup();
    }
    before := store.isPopupOpen;
    store.TogglePopup();
    store.TogglePopup();
    after := store.isPopupOpen;
  }

  /** The selected friend is the list's own object, so a status update of
      that friend shows through the selection; an update that leaves out the
      lobby clears it. */
  method SelectionSeesUpdate() returns (selectedStatus: Presence, selectedLobby: Option<string>, otherStatus: Presence)
    ensures selectedStatus == InGame && selectedLobby == None
    ensures otherStatus == Online
  {
    var ana := new Friend("u1", "ana", "ana.png", 1200, Online, None);
    var bob := new Friend("u2", "bob", "bob.png", 1100, Online, Some("lobby-7"));
    var store := new FriendsStore([ana, bob]);
    store.SelectFriend(bob);
    assert store.friends[0].id != "u2" && store.friends[1] == bob;
    store.UpdateFriendStatus("u2", InGame, None);
    selectedStatus := store.selectedFriend.status;
    selectedLobby := store.selectedFriend.currentLobby;
    otherStatus := ana.status;
  }

  /** Two entries with the same id: only the first one is updated. */
  method OnlyFirstMatchUpdated() returns (first: Presence, second: Presence)
    ensures first == Offline && second == Online
  {
    var a := new Friend("u1", "ana", "ana.png", 1200, Online, None);
    var b := new Friend("u1", "ana (copy)", "ana.png", 1200, Online, None);
    var store := new FriendsStore([a, b]);
    assert store.friends[0] == a && store.friends[1] == b;
    store.UpdateFriendStatus("u1", Offline, None);
    first, second := a.status, b.status;
  }
}
