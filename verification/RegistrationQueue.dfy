/** queue.c: the linked first-in first-out queue of waiting registrations. */
module RegistrationQueues {
  import opened CStrings
  import opened LinkedList

  /** Size of each path field of a queue node. */
  const FIELD: nat := 40

  /** strncpy(field, s, 40): at most 40 bytes of the C string, the rest NUL. */
  function StrnCpy(s: string): (field: string)
    ensures |field| == FIELD
  {
    var c := CStr(s);
    if |c| >= FIELD then c[..FIELD] else c + seq(FIELD - |c|, _ => NUL)
  }

  /** The field still ends within its 40 bytes, and reads back as the path, exactly for paths of at most 39 bytes. */
  lemma FieldSurvives(path: string)
    requires NUL !in path
    ensures NUL in StrnCpy(path) <==> |path| < FIELD
    ensures |path| < FIELD ==> CStr(StrnCpy(path)) == path
  {
    CStrOfNulFree(path, "");
    if |path| < FIELD {
      var pad := seq(FIELD - |path|, _ => NUL);
      assert StrnCpy(path)[|path|] == NUL;
      assert pad == [NUL] + pad[1..];
      CStrOfNulFree(path, pad[1..]);
      assert path + pad == path + [NUL] + pad[1..];
    } else {
      assert StrnCpy(path) == path[..FIELD];
    }
  }

  datatype Triple = Triple(response: string, request: string, notification: string)

  function Stored(t: Triple): Triple {
    Triple(StrnCpy(t.response), StrnCpy(t.request), StrnCpy(t.notification))
  }

  lemma CopyOfField(s: string)
    ensures StrnCpy(StrnCpy(s)) == StrnCpy(s)
  {
    var c := CStr(s);
    if |c| >= FIELD {
      CStrOfNulFree(c[..FIELD], "");
    } else {
      FieldSurvives(c);
      CStrOfNulFree(c, "");
    }
  }

  /** The copies made by enqueue and then by pop leave what one copy leaves: no field is mixed or changed on the way. */
  lemma CopiedTwice(t: Triple)
    ensures Stored(Stored(t)) == Stored(t)
  {
    CopyOfField(t.response);
    CopyOfField(t.request);
    CopyOfField(t.notification);
  }

  class Queue {
    var head: ListNode?<Triple>
    var tail: ListNode?<Triple>
    ghost var nodes: seq<ListNode<Triple>>
    ghost var Repr: set<object>

    ghost predicate Valid()
      reads this, Repr
      ensures Valid() ==> this in Repr
    {
      && this in Repr
      && (forall n :: n in nodes ==> n in Repr)
      && IsList(head, nodes)
      && tail == (if nodes == [] then null else nodes[|nodes| - 1])
    }

    /** The waiting registrations, oldest first. */
    ghost function Contents(): seq<Triple>
      reads this, Repr
      requires Valid()
    {
      Items(nodes)
    }

    constructor ()
      ensures Valid() && fresh(Repr) && Contents() == []
    {
      head, tail, nodes, Repr := null, null, [], {this};
    }

    method IsEmpty() returns (empty: bool)
      requires Valid()
      ensures empty <==> Contents() == []
    {
      empty := head == null;
    }

    method Enqueue(response: string, request: string, notification: string)
      requires Valid()
      modifies Repr
      ensures Valid() && fresh(Repr - old(Repr))
      ensures Contents() == old(Contents()) + [Stored(Triple(response, request, notification))]
    {
      var node := new ListNode(Stored(Triple(response, request, notification)));
      if tail == null {
        head := node;
      } else {
        tail.next := node;
      }
      tail := node;
      if nodes != [] {
        Extended(nodes, node);
      }
      nodes, Repr := nodes + [node], Repr + {node};
    }

    method Pop() returns (data: Option<Triple>)
      requires Valid()
      modifies Repr
      ensures Valid() && Repr == old(Repr)
      ensures old(Contents()) == [] ==> data == None && Contents() == []
      ensures old(Contents()) != [] ==> data == Some(Stored(old(Contents())[0])) && Contents() == old(Contents())[1..]
    {
      var empty := IsEmpty();
      if empty {
        return None;
      }
      Rest(nodes);
      data := Some(Stored(head.item));
      head := head.next;
      if head == null {
        tail := null;
      }
      nodes := nodes[1..];
    }
  }
}
