/**
 * The friends page: the friend list with its case-insensitive search, the
 * inbox of friend requests, and sending a request by username.
 */
module FriendPage {
  import opened Wrappers
  import opened Lists
  import opened Text

  /** A friend, or the sender of a friend request: an id and a display name. */
  datatype Person = Person(id: int, name: string)

  /** Whether the lower-cased name contains the lower-cased search term. */
  predicate NameMatches(f: Person, term: string) {
    Includes(ToLower(f.name), ToLower(term))
  }

  /** The search filter of the search effect: the matching friends, in list order. */
  function SearchFriends(friends: seq<Person>, term: string): (r: seq<Person>)
    ensures |r| <= |friends|
    ensures forall f :: f in r <==> f in friends && NameMatches(f, term)
  {
    Filter(friends, (f: Person) => NameMatches(f, term))
  }

  /** An empty search term matches every friend. */
  lemma EmptyTermMatchesAll(friends: seq<Person>)
    ensures SearchFriends(friends, "") == friends
  {
    forall f | f in friends ensures NameMatches(f, "") {
      IncludesEmpty(ToLower(f.name));
    }
    FilterKeepsAll(friends, (f: Person) => NameMatches(f, ""));
  }

  /** The search ignores the case of the term. */
  lemma SearchIgnoresTermCase(friends: seq<Person>, term: string)
    ensures SearchFriends(friends, ToLower(term)) == SearchFriends(friends, term)
  {
    ToLowerIdempotent(term);
    FilterSameCondition(friends, (f: Person) => NameMatches(f, ToLower(term)), (f: Person) => NameMatches(f, term));
  }

  /** The results keep the friend list's order: searching a concatenation concatenates the searches. */
  lemma SearchKeepsOrder(a: seq<Person>, b: seq<Person>, term: string)
    ensures SearchFriends(a + b, term) == SearchFriends(a, term) + SearchFriends(b, term)
  {
    FilterConcat(a, b, (f: Person) => NameMatches(f, term));
  }

  /** `list.filter(x => x.id !== id)`: every entry but those with the given id, in order. */
  function WithoutId(s: seq<Person>, id: int): (r: seq<Person>)
    ensures |r| <= |s|
    ensures forall p :: p in r <==> p in s && p.id != id
  {
    Filter(s, (p: Person) => p.id != id)
  }

  /** Removing an id no entry has changes nothing; otherwise the list gets shorter. */
  lemma WithoutIdShrinks(s: seq<Person>, id: int)
    ensures (forall k :: 0 <= k < |s| ==> s[k].id != id) <==> WithoutId(s, id) == s
    ensures (exists k :: 0 <= k < |s| && s[k].id == id) ==> |WithoutId(s, id)| < |s|
  {
    var keep := (p: Person) => p.id != id;
    var drop := (p: Person) => p.id == id;
    FilterPartition(s, keep, drop);
    if forall k :: 0 <= k < |s| ==> s[k].id != id {
      FilterKeepsAll(s, keep);
    }
    if k :| 0 <= k < |s| && s[k].id == id {
      assert s[k] in Filter(s, drop);
      assert |Filter(s, drop)| > 0;
      assert |multiset(Filter(s, keep))| + |multiset(Filter(s, drop))| == |multiset(s)|;
    }
  }

  /** The page's state. */
  class Page {
    var friends: seq<Person>
    var inbox: seq<Person>
    var filteredFriends: seq<Person>
    var newFriend: string
    var searchTerm: string
    var showFriendsList: bool

    constructor()
      ensures friends == [] && inbox == [] && filteredFriends == []
      ensures newFriend == [] && searchTerm == [] && !showFriendsList
    {
      friends := [];
      inbox := [];
      filteredFriends := [];
      newFriend := [];
      searchTerm := [];
      showFriendsList := false;
    }

    /**
     * The effect on the search term, the friend list and the list's visibility: a term
     * filters the friends, no term with the list shown shows them all.
     */
    method SearchEffect()
      modifies this
      ensures searchTerm != [] ==> filteredFriends == SearchFriends(friends, searchTerm)
      ensures searchTerm == [] && showFriendsList ==> filteredFriends == friends
      ensures searchTerm == [] && !showFriendsList ==> filteredFriends == old(filteredFriends)
      ensures friends == old(friends) && inbox == old(inbox) && newFriend == old(newFriend)
      ensures searchTerm == old(searchTerm) && showFriendsList == old(showFriendsList)
    {
      if searchTerm != [] {
        filteredFriends := SearchFriends(friends, searchTerm);
      } else if showFriendsList {
        filteredFriends := friends;
      }
    }

    /** `handleSearchBlur`: the list closes only when no term is typed. */
    method SearchBlur()
      modifies this
      ensures showFriendsList == (old(showFriendsList) && searchTerm != [])
      ensures friends == old(friends) && inbox == old(inbox) && filteredFriends == old(filteredFriends)
      ensures newFriend == old(newFriend) && searchTerm == old(searchTerm)
    {
      if searchTerm == [] {
        showFriendsList := false;
      }
    }

    /** `handleSearchFocus`: opens the list showing every friend. */
    method SearchFocus()
      modifies this
      ensures showFriendsList && filteredFriends == friends
      ensures friends == old(friends) && inbox == old(inbox)
      ensures newFriend == old(newFriend) && searchTerm == old(searchTerm)
    {
      showFriendsList := true;
      filteredFriends := friends;
    }

    /**
     * `fetchFriendsList`: the fetched list replaces both the friends and the shown
     * friends; a failed fetch (`None`) changes nothing.
     */
    method FetchFriendsList(fetched: Option<seq<Person>>)
      modifies this
      ensures fetched.Some? ==> friends == fetched.value && filteredFriends == fetched.value
      ensures fetched.None? ==> friends == old(friends) && filteredFriends == old(filteredFriends)
      ensures inbox == old(inbox) && newFriend == old(newFriend)
      ensures searchTerm == old(searchTerm) && showFriendsList == old(showFriendsList)
    {
      if fetched.Some? {
        friends := fetched.value;
        filteredFriends := fetched.value;
      }
    }

    /**
     * `handleAcceptRequest`: on success the request leaves the inbox and the friend
     * list is fetched again (its outcome is `reloaded`).
     */
    method AcceptRequest(requestId: int, ok: bool, reloaded: Option<seq<Person>>)
      modifies this
      ensures ok ==> inbox == WithoutId(old(inbox), requestId)
      ensures ok && reloaded.Some? ==> friends == reloaded.value && filteredFriends == reloaded.value
      ensures !ok || reloaded.None? ==> friends == old(friends) && filteredFriends == old(filteredFriends)
      ensures !ok ==> inbox == old(inbox)
      ensures newFriend == old(newFriend) && searchTerm == old(searchTerm) && showFriendsList == old(showFriendsList)
    {
      if ok {
        inbox := WithoutId(inbox, requestId);
        FetchFriendsList(reloaded);
      }
    }

    /** `handleDeclineRequest`: on success the request leaves the inbox. */
    method DeclineRequest(requestId: int, ok: bool)
      modifies this
      ensures inbox == if ok then WithoutId(old(inbox), requestId) else old(inbox)
      ensures friends == old(friends) && filteredFriends == old(filteredFriends)
      ensures newFriend == old(newFriend) && searchTerm == old(searchTerm) && showFriendsList == old(showFriendsList)
    {
      if ok {
        inbox := WithoutId(inbox, requestId);
      }
    }

    /**
     * `handleAddFriend`: a request is sent only when the typed username is not blank,
     * and the input is cleared when the server accepts it.
     */
    method AddFriend(ok: bool) returns (sent: Option<string>)
      modifies this
      ensures sent.Some? <==> Trim(old(newFriend)) != []
      ensures sent.Some? ==> sent.value == old(newFriend)
      ensures newFriend == if sent.Some? && ok then [] else old(newFriend)
      ensures friends == old(friends) && inbox == old(inbox) && filteredFriends == old(filteredFriends)
      ensures searchTerm == old(searchTerm) && showFriendsList == old(showFriendsList)
    {
      if Trim(newFriend) != [] {
        sent := Some(newFriend);
        if ok {
          newFriend := [];
        }
      } else {
        sent := None;
      }
    }

    /** `onRemoveFriend`: every friend with the id leaves the list; the shown list waits for the effect. */
    method RemoveFriend(friendId: int)
      modifies this
      ensures friends == WithoutId(old(friends), friendId)
      ensures inbox == old(inbox) && filteredFriends == old(filteredFriends)
      ensures newFriend == old(newFriend) && searchTerm == old(searchTerm) && showFriendsList == old(showFriendsList)
    {
      friends := WithoutId(friends, friendId);
    }
  }

  /** A username of spaces only sends no request. */
  lemma BlankNameSendsNothing(name: string)
    requires forall k :: 0 <= k < |name| ==> IsSpace(name[k])
    ensures Trim(name) == []
  {
    TrimEmptyIffBlank(name);
  }
}
