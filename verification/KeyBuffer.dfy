/** The keyboard ring of keyboard.c: 500 places of which one stays free, so it is a queue of at
    most 499 characters. */
module KeyBuffer {

  const SIZE := 500

  /** The k-th place after front, around the ring */
  function Place(front: nat, k: nat): nat {
    (front + k) % SIZE
  }

  function Length(front: nat, end: nat): nat
    requires front < SIZE && end < SIZE
  {
    (end + SIZE - front) % SIZE
  }

  /** The characters from front up to end, around the ring. */
  function Ring(b: seq<char>, front: nat, end: nat): (s: seq<char>)
    requires |b| == SIZE && front < SIZE && end < SIZE
    ensures |s| < SIZE && (s == [] <==> front == end)
  {
    seq(Length(front, end), k requires 0 <= k => b[Place(front, k)])
  }

  lemma RingWrite(b: seq<char>, front: nat, end: nat, ch: char)
    requires |b| == SIZE && front < SIZE && end < SIZE
    ensures (end + 1) % SIZE == front <==> |Ring(b, front, end)| == 499
    ensures (end + 1) % SIZE != front ==> Ring(b[end := ch], front, (end + 1) % SIZE) == Ring(b, front, end) + [ch]
  {
    var n := Length(front, end);
    assert Place(front, n) == end;
    NextEnd(front, end);
    if (end + 1) % SIZE != front {
      forall k | 0 <= k < n
        ensures Place(front, k) != end
      {
      }
      hide Place, Length;
      var s, s' := Ring(b, front, end), Ring(b[end := ch], front, (end + 1) % SIZE);
      assert forall k :: 0 <= k < n ==> s'[k] == s[k];
    }
  }

  lemma NextEnd(front: nat, end: nat)
    requires front < SIZE && end < SIZE
    ensures (end + 1) % SIZE == front <==> Length(front, end) == SIZE - 1
    ensures (end + 1) % SIZE != front ==> Length(front, (end + 1) % SIZE) == Length(front, end) + 1
  {
    LengthIs(front, end);
    LengthIs(front, (end + 1) % SIZE);
    hide Length;
    assert (end + 1) % SIZE == if end == SIZE - 1 then 0 else end + 1;
  }

  lemma LengthIs(front: nat, end: nat)
    requires front < SIZE && end < SIZE
    ensures Length(front, end) == if front <= end then end - front else end + SIZE - front
  {
  }

  lemma RingTake(b: seq<char>, front: nat, end: nat)
    requires |b| == SIZE && front < SIZE && end < SIZE && front != end
    ensures var s := Ring(b, front, end); s[0] == b[front] && Ring(b, (front + 1) % SIZE, end) == s[1..]
  {
    hide Place, Length;
    NextFront(front, end);
    forall k | 1 <= k < Length(front, end)
      ensures Place((front + 1) % SIZE, k - 1) == Place(front, k)
    {
      NextPlace(front, k - 1);
    }
    var s, s' := Ring(b, front, end), Ring(b, (front + 1) % SIZE, end);
    assert forall k :: 0 <= k < |s'| ==> s'[k] == s[k + 1];
  }

  lemma NextFront(front: nat, end: nat)
    requires front < SIZE && end < SIZE && front != end
    ensures Place(front, 0) == front && Length((front + 1) % SIZE, end) == Length(front, end) - 1 >= 0
  {
    LengthIs(front, end);
    LengthIs((front + 1) % SIZE, end);
    hide Length;
    assert (front + 1) % SIZE == if front == SIZE - 1 then 0 else front + 1;
  }

  lemma NextPlace(front: nat, k: nat)
    requires front < SIZE
    ensures Place((front + 1) % SIZE, k) == Place(front, k + 1)
  {
  }

  /** The ring as a value: the 500 places, where the next reader takes from, where the next
      character goes. */
  datatype Keyboard = Keyboard(buffer: seq<char>, front: nat, end: nat)

  predicate InOrder(k: Keyboard) {
    |k.buffer| == SIZE && k.front < SIZE && k.end < SIZE
  }

  /** The characters waiting to be read, oldest first. */
  function Waiting(k: Keyboard): (s: seq<char>)
    requires InOrder(k)
    ensures |s| < SIZE && (s == [] <==> k.front == k.end)
  {
    Ring(k.buffer, k.front, k.end)
  }

  predicate Full(k: Keyboard) {
    (k.end + 1) % SIZE == k.front
  }

  /** write_key_buffer */
  function Written(k: Keyboard, ch: char): (r: Keyboard)
    requires InOrder(k)
    ensures InOrder(r)
  {
    if Full(k) then k else k.(buffer := k.buffer[k.end := ch], end := (k.end + 1) % SIZE)
  }

  /** The front moves on, as at the end of read_key_buffer. */
  function Advanced(k: Keyboard): (r: Keyboard)
    requires InOrder(k)
    ensures InOrder(r)
  {
    k.(front := (k.front + 1) % SIZE)
  }

  /** A character that does not fit is dropped; the front stays where it is. */
  lemma WrittenWaits(k: Keyboard, ch: char)
    requires InOrder(k)
    ensures Full(k) <==> |Waiting(k)| == 499
    ensures Waiting(Written(k, ch)) == if Full(k) then Waiting(k) else Waiting(k) + [ch]
    ensures Written(k, ch).front == k.front && Waiting(Written(k, ch)) != []
  {
    RingWrite(k.buffer, k.front, k.end, ch);
  }

  /** What lies at the front is the oldest character. */
  lemma AdvancedWaits(k: Keyboard)
    requires InOrder(k) && Waiting(k) != []
    ensures k.buffer[k.front] == Waiting(k)[0] && Waiting(Advanced(k)) == Waiting(k)[1..]
  {
    RingTake(k.buffer, k.front, k.end);
  }

  class KeyBuffer {
    const buffer: array<char>
    var front: nat
    var end: nat

    ghost function Abs(): Keyboard
      reads this, buffer
    {
      Keyboard(buffer[..], front, end)
    }

    ghost predicate Valid()
      reads this, buffer
    {
      InOrder(Abs())
    }

    constructor ()
      ensures Valid() && fresh(buffer) && Waiting(Abs()) == []
    {
      buffer := new char[SIZE](_ => '\0');
      front, end := 0, 0;
    }

    method WriteKeyBuffer(ch: char)
      requires Valid()
      modifies this`end, buffer
      ensures Valid() && Abs() == Written(old(Abs()), ch)
      ensures Waiting(Abs()) ==
              if |Waiting(old(Abs()))| == 499 then Waiting(old(Abs())) else Waiting(old(Abs())) + [ch]
    {
      WrittenWaits(Abs(), ch);
      if (end + 1) % SIZE == front {
        return;
      }
      buffer[end] := ch;
      end := (end + 1) % SIZE;
    }

    /** read_key_buffer up to its test: the front is saved, and the reader sleeps if the ring is
        empty. */
    method BeginRead() returns (saved: nat, sleeps: bool)
      requires Valid()
      ensures saved == Abs().front && (sleeps <==> Waiting(Abs()) == [])
    {
      saved, sleeps := front, front == end;
    }

    /** Its end, which a resumed reader reaches without another test: the front moves on, and the
        character comes from the place saved before the sleep. */
    method TakeKey(saved: nat) returns (ch: char)
      requires Valid() && saved < SIZE
      modifies this`front
      ensures Valid() && Abs() == Advanced(old(Abs())) && ch == old(Abs()).buffer[saved]
      ensures saved == old(front) && Waiting(old(Abs())) != [] ==>
                ch == Waiting(old(Abs()))[0] && Waiting(Abs()) == Waiting(old(Abs()))[1..]
    {
      if saved == front && front != end {
        AdvancedWaits(Abs());
      }
      front := (front + 1) % SIZE;
      ch := buffer[saved];
    }
  }
}
