/** The list of requests between lookups and resolver threads (src/thread_resolve.c:61-68,
    src/thread_resolve.c:125-135, src/thread_resolve.c:230-245): singly linked, with a tail pointer that is
    left dangling when the list runs empty. It refines a sequence. */
module RequestQueue {
  import opened Wrappers

  // struct ipresolve_link
  class Link<T> {
    const item: T
    var next: Link?<T>

    constructor (item: T)
      ensures this.item == item && next == null
    {
      this.item, next := item, null;
    }
  }

  class RequestQueue<T> {
    var head: Link?<T>
    var tail: Link?<T>
    ghost var links: seq<Link<T>>

    // Nothing is said about the tail of an empty list.
    ghost predicate Valid()
      reads this, links
    {
      && head == (if links == [] then null else links[0])
      && (links != [] ==> tail == links[|links|-1])
      && (forall i {:trigger links[i].next} :: 0 <= i < |links| ==> links[i].next == if i + 1 < |links| then links[i+1] else null)
      && Distinct(links)
    }

    ghost function View(): (v: seq<T>)
      reads this
      ensures |v| == |links|
    {
      seq(|links|, i requires 0 <= i < |links| reads this => links[i].item)
    }

    constructor ()
      ensures Valid() && View() == [] && links == []
    {
      head, tail, links := null, null, [];
    }

    // The end of sendrequest_inverse
    method Append(item: T)
      requires Valid()
      modifies this, links
      ensures Valid() && View() == old(View()) + [item] && fresh(set l | l in links && l !in old(links))
    {
      var newitm := new Link(item);
      if head == null {
        tail := newitm;
        head := newitm;
      } else {
        tail.next := newitm;
        tail := newitm;
      }
      links := links + [newitm];
    }

    // What a thread does under the lock when it finds the list not empty
    method Take() returns (item: Option<T>)
      requires Valid()
      modifies this
      ensures Valid() && links == if old(links) == [] then [] else old(links)[1..]
      ensures if old(View()) == [] then item == None && View() == []
              else item == Some(old(View())[0]) && View() == old(View())[1..]
    {
      if head == null {
        return None;
      }
      var el := head;
      head := el.next;
      links := links[1..];
      item := Some(el.item);
    }
  }
}
