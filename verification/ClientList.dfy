/** The list behind `firewall.clients` (Kext/firewall.cpp:695-774): the clients are linked through their own `next`
    fields, newest first. */
module ClientListHeap {
  import opened Common
  import opened ClientsHeap

  class ClientList {
    var clients: Client?
    ghost var Listed: seq<Client>

    ghost predicate Coupled()
      reads this, Listed`next
    {
      && Distinct(Listed)
      && clients == (if Listed == [] then null else Listed[0])
      && (forall i {:trigger Listed[i].next} :: 0 <= i < |Listed| ==>
            Listed[i].next == if i + 1 < |Listed| then Listed[i + 1] else null)
    }

    constructor ()
      ensures Coupled() && Listed == []
    {
      clients := null;
      Listed := [];
    }

    /** The end of `KcConnect`. */
    method Push(client: Client)
      requires Coupled() && client !in Listed
      modifies this, client`next
      ensures Coupled() && Listed == [client] + old(Listed)
    {
      client.next := clients;
      clients := client;
      Listed := [client] + Listed;
    }

    /** The loop of `KcDisconnect`: where the client is and what comes before it. */
    method Search(client: Client) returns (prev: Client?, curr: Client?)
      requires Coupled()
      ensures var i := IndexOf(Listed, client);
        && curr == (if i < |Listed| then client else null)
        && prev == (if i > 0 then Listed[i - 1] else null)
    {
      prev, curr := null, clients;
      ghost var i := 0;
      while curr != null && curr != client
        invariant i <= |Listed|
        invariant curr == if i < |Listed| then Listed[i] else null
        invariant prev == if i > 0 then Listed[i - 1] else null
        invariant client !in Listed[..i]
        decreases |Listed| - i
      {
        prev := curr;
        curr := curr.next;
        i := i + 1;
      }
    }

    method Unlink(prev: Client?, curr: Client, ghost i: nat)
      requires Coupled() && i < |Listed| && curr == Listed[i]
      requires prev == if i > 0 then Listed[i - 1] else null
      modifies this, Listed`next
      ensures Coupled() && Listed == RemoveAt(old(Listed), i)
    {
      if prev != null {
        prev.next := curr.next;
      } else {
        clients := curr.next;
      }
      Listed := RemoveAt(Listed, i);
    }

    /** `KcDisconnect`: exactly the named client leaves the list and the others keep their order; a client that is not
        listed leaves it as it is. */
    method Remove(client: Client) returns (found: bool)
      requires Coupled()
      modifies this, Listed`next
      ensures Coupled() && found == (client in old(Listed))
      ensures Listed == if found then RemoveAt(old(Listed), IndexOf(old(Listed), client)) else old(Listed)
    {
      var prev, curr := Search(client);
      found := curr != null;
      if found {
        Unlink(prev, curr, IndexOf(Listed, client));
      }
    }
  }
}
