/** Card slots, seat labels and the card-slot bookkeeping shared by both
    revisions of the hand engine. A card is its text code (`"Ah"`); the
    empty string marks an unassigned slot. */
module Cards {
  import opened Base

  type Card = string

  const NoCard: Card := ""

  /** The tournament revision's game variants; the cash revision always
      plays Hold'em. */
  datatype Variant = Holdem | Omaha | Pineapple

  predicate AllEmpty(s: seq<Card>) { forall k :: 0 <= k < |s| ==> s[k] == NoCard }

  /** Hole-card slots a fresh player receives: four for Omaha, three for
      Crazy Pineapple, two otherwise. */
  function EmptyCardSlots(v: Variant): (r: seq<Card>)
    ensures AllEmpty(r)
    ensures |r| == (match v case Omaha => 4 case Pineapple => 3 case Holdem => 2)
  {
    match v
    case Omaha => [NoCard, NoCard, NoCard, NoCard]
    case Pineapple => [NoCard, NoCard, NoCard]
    case Holdem => [NoCard, NoCard]
  }

  predicate Distinct<T(==)>(s: seq<T>) {
    forall i, j :: 0 <= i < j < |s| ==> s[i] != s[j]
  }

  const FullTable: seq<string> := ["BTN", "SB", "BB", "UTG", "UTG+1", "MP1", "MP2", "HJ", "CO"]

  /** Length JavaScript's `slice(0, n)` keeps of a 9-element list. */
  function SliceLength(n: int): nat
  {
    if n >= 9 then 9 else if n >= 0 then n else Max(0, 9 + n)
  }

  /** Seat labels by table size, seat 0 being the button. */
  function Positions(n: int): (r: seq<string>)
    ensures 2 <= n <= 9 ==> |r| == n
    ensures !(2 <= n <= 9) ==> |r| == SliceLength(n)
    ensures n == 2 ==> r == ["BTN / SB", "BB"]
    ensures 3 <= n <= 9 ==> r[..3] == ["BTN", "SB", "BB"]
    ensures 4 <= n <= 9 ==> r[|r| - 1] == "CO"
    ensures Distinct(r)
  {
    if n == 2 then ["BTN / SB", "BB"]
    else if n == 3 then ["BTN", "SB", "BB"]
    else if n == 4 then ["BTN", "SB", "BB", "CO"]
    else if n == 5 then ["BTN", "SB", "BB", "MP", "CO"]
    else if n == 6 then ["BTN", "SB", "BB", "UTG", "MP", "CO"]
    else if n == 7 then ["BTN", "SB", "BB", "UTG", "MP", "HJ", "CO"]
    else if n == 8 then ["BTN", "SB", "BB", "UTG", "UTG+1", "MP", "HJ", "CO"]
    else if n == 9 then ["BTN", "SB", "BB", "UTG", "UTG+1", "MP", "LJ", "HJ", "CO"]
    else FullTable[..SliceLength(n)]
  }

  /** `a[i] = v` on a JavaScript array: past the end the array grows, and
      the holes read as empty slots. */
  function SetSlot(s: seq<Card>, i: nat, v: Card): (r: seq<Card>)
    ensures |r| == if i < |s| then |s| else i + 1
    ensures r[i] == v
    ensures forall k :: 0 <= k < |s| && k != i ==> r[k] == s[k]
    ensures forall k :: |s| <= k < |r| && k != i ==> r[k] == NoCard
  {
    if i < |s| then s[i := v] else s + seq(i - |s|, _ => NoCard) + [v]
  }

  /** `a.splice(i, 1)`: removes the element at `i`, if there is one. */
  function RemoveAt(s: seq<Card>, i: nat): (r: seq<Card>)
    ensures i < |s| ==> |r| == |s| - 1 && r == s[..i] + s[i + 1..]
    ensures i >= |s| ==> r == s
  {
    if i < |s| then s[..i] + s[i + 1..] else s
  }

  /** `a[i]` read as a card: out of range reads as no card. */
  function SlotAt(s: seq<Card>, i: nat): Card
  {
    if i < |s| then s[i] else NoCard
  }

  function CountNonEmpty(s: seq<Card>): (n: nat)
    ensures n <= |s|
    ensures n == 0 <==> AllEmpty(s)
    ensures n == |s| <==> forall k :: 0 <= k < |s| ==> s[k] != NoCard
  {
    if |s| == 0 then 0
    else
      var rest := CountNonEmpty(s[1..]);
      assert forall k :: 1 <= k < |s| ==> s[k] == s[1..][k - 1];
      (if s[0] != NoCard then 1 else 0) + rest
  }

  /** The cards of the flop slots of a board. */
  function FlopCards(board: seq<Card>): seq<Card>
  {
    board[..if |board| < 3 then |board| else 3]
  }

  /** `cards.filter(c => c)`: the assigned cards, in order. */
  function Dealt(s: seq<Card>): (r: seq<Card>)
    ensures |r| == CountNonEmpty(s)
    ensures forall k :: 0 <= k < |r| ==> r[k] != NoCard
    ensures forall c :: c in r <==> c in s && c != NoCard
    // every dealt card is kept as often as it occurs
    ensures forall c :: c != NoCard ==> multiset(r)[c] == multiset(s)[c]
    ensures AllEmpty(s) ==> r == []
  {
    if |s| == 0 then []
    else
      assert s == [s[0]] + s[1..];
      (if s[0] != NoCard then [s[0]] else []) + Dealt(s[1..])
  }

  /** Filtering distributes over concatenation, so the kept cards stay in
      their order. */
  lemma {:induction false} DealtAppend(a: seq<Card>, b: seq<Card>)
    ensures Dealt(a + b) == Dealt(a) + Dealt(b)
    decreases |a|
  {
    if |a| > 0 {
      DealtAppend(a[1..], b);
      assert (a + b)[1..] == a[1..] + b;
    } else {
      assert a + b == b;
    }
  }

  /** Number of dealt cards among the three flop slots of a board. */
  function FlopCount(board: seq<Card>): (n: nat)
    ensures n <= 3
  {
    CountNonEmpty(board[..if |board| < 3 then |board| else 3])
  }

  /** `xs.join(sep)`. */
  function Join(xs: seq<string>, sep: string): string
  {
    if |xs| == 0 then "" else if |xs| == 1 then xs[0] else xs[0] + sep + Join(xs[1..], sep)
  }

  /** `cards.join('')`: the slots concatenated. */
  function Concat(xs: seq<string>): string
  {
    if |xs| == 0 then "" else xs[0] + Concat(xs[1..])
  }
}
