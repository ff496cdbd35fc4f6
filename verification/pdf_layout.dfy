/** Line placement in the exported study summary: a header, then one line per
    message, walking down the page and starting a new page near the bottom. */
module PdfLayout {
  import opened Text
  import opened Wire

  const HeaderY: int := 800
  const HeaderGap: int := 30
  const LineStep: int := 20
  const BottomMargin: int := 50
  const PageTop: int := 800

  /** One `drawString` call: the page it lands on (0 is the first) and its y. */
  datatype Draw = Draw(page: nat, y: int, text: string)

  /** `f"{msg.role.title()}: {msg.content}"` */
  function LineText(m: Message): string {
    Title(RoleName(m.role)) + ": " + m.content
  }

  lemma LineTextRoles(c: string)
    ensures LineText(Message(User, c)) == "User: " + c
    ensures LineText(Message(Assistant, c)) == "Assistant: " + c
  {
    UserTitle();
    AssistantTitle();
  }

  lemma UserTitle()
    ensures Title(RoleName(User)) == "User"
  {
    TitleOfLowerWord("user");
    assert UpperChar('u') == 'U';
  }

  lemma AssistantTitle()
    ensures Title(RoleName(Assistant)) == "Assistant"
  {
    TitleOfLowerWord("assistant");
    assert UpperChar('a') == 'A';
  }

  /** A word of lower-case letters is title-cased by capitalising its first letter. */
  lemma TitleOfLowerWord(w: string)
    requires w != [] && forall i | 0 <= i < |w| :: IsLower(w[i])
    ensures Title(w) == [UpperChar(w[0])] + w[1..]
  {
    LowerRunUnchanged(w[1..]);
  }

  lemma {:induction false} LowerRunUnchanged(w: string)
    requires forall i | 0 <= i < |w| :: IsLower(w[i])
    ensures TitleFrom(w, true) == w
    decreases |w|
  {
    if w != [] {
      LowerRunUnchanged(w[1..]);
    }
  }

  /** One step of the loop's y walk: down one line, or to the top of the next
      page once y falls below the bottom margin. */
  function Advance(at: (nat, int)): (nat, int) {
    var next := at.1 - LineStep;
    if next < BottomMargin then (at.0 + 1, PageTop) else (at.0, next)
  }

  /** The message loop, started at page `at.0` and height `at.1`. */
  function Walk(at: (nat, int), msgs: seq<Message>): (w: seq<Draw>)
    ensures |w| == |msgs|
    decreases |msgs|
  {
    if msgs == [] then []
    else [Draw(at.0, at.1, LineText(msgs[0]))] + Walk(Advance(at), msgs[1..])
  }

  /** The whole document: the header at the top of the first page, then the messages. */
  function Layout(header: string, msgs: seq<Message>): seq<Draw> {
    [Draw(0, HeaderY, header)] + Walk((0, HeaderY - HeaderGap), msgs)
  }

  /** Where the loop stands before drawing the k-th message line. */
  function Position(k: nat): (nat, int)
    decreases k
  {
    if k == 0 then (0, HeaderY - HeaderGap) else Advance(Position(k - 1))
  }

  /** The same place in closed form: the first page holds 37 lines (y = 770
      down to 50), every later page 38 (y = 800 down to 60). */
  function Slot(k: nat): (nat, int) {
    if k < 37 then (0, 770 - 20 * k)
    else (1 + (k - 37) / 38, 800 - 20 * ((k - 37) % 38))
  }

  lemma DivMod38(n: int, q: int, r: int)
    requires n == 38 * q + r && 0 <= r < 38
    ensures n / 38 == q && n % 38 == r
  {
  }

  /** One step of the loop moves from one closed-form slot to the next. */
  lemma SlotStep(k: nat)
    ensures Slot(k + 1) == Advance(Slot(k))
  {
    if k >= 37 {
      var d := k - 37;
      var q, r := d / 38, d % 38;
      if r == 37 {
        DivMod38(d + 1, q + 1, 0);
      } else {
        DivMod38(d + 1, q, r + 1);
      }
    }
  }

  lemma {:induction false} PositionIsSlot(k: nat)
    ensures Position(k) == Slot(k)
    decreases k
  {
    if k > 0 {
      PositionIsSlot(k - 1);
      SlotStep(k - 1);
    }
  }

  lemma SlotInBounds(k: nat)
    ensures BottomMargin <= Slot(k).1 <= PageTop
  {
  }

  lemma {:induction false} WalkFollowsPositions(j: nat, msgs: seq<Message>)
    ensures forall k | 0 <= k < |msgs| ::
      Walk(Position(j), msgs)[k] == Draw(Position(j + k).0, Position(j + k).1, LineText(msgs[k]))
    decreases |msgs|
  {
    if msgs != [] {
      WalkFollowsPositions(j + 1, msgs[1..]);
      var w := Walk(Position(j), msgs);
      var rest := Walk(Position(j + 1), msgs[1..]);
      assert w == [Draw(Position(j).0, Position(j).1, LineText(msgs[0]))] + rest;
      forall k | 0 < k < |msgs|
        ensures w[k] == Draw(Position(j + k).0, Position(j + k).1, LineText(msgs[k]))
      {
        assert w[k] == rest[k - 1];
        assert j + 1 + (k - 1) == j + k;
      }
    }
  }

  /** The document is the header followed by every message line, in order,
      each at its closed-form slot. */
  lemma LayoutBySlots(header: string, msgs: seq<Message>)
    ensures var d := Layout(header, msgs);
      && |d| == |msgs| + 1
      && d[0] == Draw(0, HeaderY, header)
      && forall k | 0 <= k < |msgs| :: d[k + 1] == Draw(Slot(k).0, Slot(k).1, LineText(msgs[k]))
  {
    WalkFollowsPositions(0, msgs);
    var d := Layout(header, msgs);
    forall k | 0 <= k < |msgs|
      ensures d[k + 1] == Draw(Slot(k).0, Slot(k).1, LineText(msgs[k]))
    {
      PositionIsSlot(k);
      assert d[k + 1] == Walk(Position(0), msgs)[k];
    }
  }

  /** Every line is drawn between the bottom margin and the top of its page, and
      consecutive message lines are either 20 apart on one page or the second
      opens the next page at its top. */
  lemma LayoutWithinPage(header: string, msgs: seq<Message>)
    ensures var d := Layout(header, msgs);
      && |d| == |msgs| + 1
      && (forall i | 0 <= i < |d| :: BottomMargin <= d[i].y <= PageTop)
      && (forall k | 1 <= k < |msgs| ::
            || (d[k + 1].page == d[k].page && d[k + 1].y == d[k].y - LineStep)
            || (d[k + 1].page == d[k].page + 1 && d[k + 1].y == PageTop && d[k].y - LineStep < BottomMargin))
  {
    LayoutBySlots(header, msgs);
    var d := Layout(header, msgs);
    forall i | 0 < i < |d|
      ensures BottomMargin <= d[i].y <= PageTop
    {
      SlotInBounds(i - 1);
    }
    forall k | 1 <= k < |msgs|
      ensures || (d[k + 1].page == d[k].page && d[k + 1].y == d[k].y - LineStep)
              || (d[k + 1].page == d[k].page + 1 && d[k + 1].y == PageTop && d[k].y - LineStep < BottomMargin)
    {
      SlotStep(k - 1);
    }
  }
}
