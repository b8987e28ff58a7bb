/**
 * Properties of the frame layout: one highlight box, behind the selected
 * row's label and no other; every label drawn once, in menu order; the
 * sub-screen title matching the menu label that opened it; everything on
 * the 480 x 320 surface.
 */
module RenderProps {
  import opened Config
  import opened Launcher
  import opened Render

  /** A highlight box is a filled rectangle in the highlight-box colour. */
  predicate IsHighlight(op: DrawOp)
  {
    op.FillRect? && op.color == HighlightBoxColor
  }

  /** How many highlight boxes a list of draw operations paints. */
  function CountHighlights(ops: seq<DrawOp>): nat
  {
    if |ops| == 0 then 0
    else (if IsHighlight(ops[0]) then 1 else 0) + CountHighlights(ops[1..])
  }

  /** The strings a list of draw operations writes, in drawing order. */
  function Texts(ops: seq<DrawOp>): seq<string>
  {
    if |ops| == 0 then []
    else (if ops[0].Blit? then [ops[0].text] else []) + Texts(ops[1..])
  }

  /** The strings written in colour `c`, in drawing order. */
  function TextsIn(ops: seq<DrawOp>, c: Rgb): seq<string>
  {
    if |ops| == 0 then []
    else (if ops[0].Blit? && ops[0].color == c then [ops[0].text] else []) + TextsIn(ops[1..], c)
  }

  /** The point (px, py) lies inside the rectangle `op` paints. */
  predicate Covers(op: DrawOp, px: int, py: int)
  {
    op.FillRect? && op.x <= px < op.x + op.w && op.y <= py < op.y + op.h
  }

  /** A rectangle lies wholly on the surface; a text origin lies on it. */
  predicate OnSurface(op: DrawOp)
  {
    match op
    case Fill(_) => true
    case FillRect(_, x, y, w, h, _) => 0 <= x && 0 <= y && 0 <= w && 0 <= h && x + w <= ScreenWidth && y + h <= ScreenHeight
    case Blit(_, _, _, x, y) => 0 <= x < ScreenWidth && 0 <= y < ScreenHeight
  }

  /** Counting highlight boxes distributes over concatenation. */
  lemma {:induction false} CountHighlightsAppend(a: seq<DrawOp>, b: seq<DrawOp>)
    ensures CountHighlights(a + b) == CountHighlights(a) + CountHighlights(b)
    decreases |a|
  {
    if |a| == 0 {
      assert a + b == b;
    } else {
      assert (a + b)[1..] == a[1..] + b;
      CountHighlightsAppend(a[1..], b);
    }
  }

  /** The texts of two lists drawn one after the other are the first list's texts, then the second's. */
  lemma {:induction false} TextsAppend(a: seq<DrawOp>, b: seq<DrawOp>)
    ensures Texts(a + b) == Texts(a) + Texts(b)
    decreases |a|
  {
    if |a| == 0 {
      assert a + b == b;
    } else {
      assert (a + b)[0] == a[0];
      assert (a + b)[1..] == a[1..] + b;
      TextsAppend(a[1..], b);
    }
  }

  /** The same for the texts written in one colour. */
  lemma {:induction false} TextsInAppend(a: seq<DrawOp>, b: seq<DrawOp>, c: Rgb)
    ensures TextsIn(a + b, c) == TextsIn(a, c) + TextsIn(b, c)
    decreases |a|
  {
    if |a| == 0 {
      assert a + b == b;
    } else {
      assert (a + b)[0] == a[0];
      assert (a + b)[1..] == a[1..] + b;
      TextsInAppend(a[1..], b, c);
    }
  }

  /** Drawing one operation in front of a list adds that operation's text and highlight box. */
  lemma DrawOpCons(op: DrawOp, rest: seq<DrawOp>, c: Rgb)
    ensures CountHighlights([op] + rest) == (if IsHighlight(op) then 1 else 0) + CountHighlights(rest)
    ensures Texts([op] + rest) == (if op.Blit? then [op.text] else []) + Texts(rest)
    ensures TextsIn([op] + rest, c) == (if op.Blit? && op.color == c then [op.text] else []) + TextsIn(rest, c)
  {
  }

  /** The first `n` rows paint a highlight box exactly when the selection is among them, and only the selected row's. */
  lemma {:induction false} RowsHighlight(n: nat, selected: int)
    requires n <= |MenuItems|
    ensures CountHighlights(Rows(n, selected)) == if 0 <= selected < n then 1 else 0
    ensures forall k :: 0 <= k < |Rows(n, selected)| && IsHighlight(Rows(n, selected)[k])
                        ==> Rows(n, selected)[k] == HighlightRect(selected)
  {
    if n > 0 {
      RowsHighlight(n - 1, selected);
      var r := RowOps(n - 1, selected);
      CountHighlightsAppend(Rows(n - 1, selected), r);
      var lbl := RowLabel(n - 1, selected);
      if n - 1 == selected {
        assert r == [HighlightRect(n - 1)] + ([lbl] + []);
        DrawOpCons(HighlightRect(n - 1), [lbl] + [], HighlightColor);
      } else {
        assert r == [lbl] + [];
      }
      DrawOpCons(lbl, [], HighlightColor);
    }
  }

  /** One row writes its own label, in the highlight colour exactly when it is the selected row. */
  lemma RowOpsTexts(i: int, selected: int)
    requires 0 <= i < |MenuItems|
    ensures Texts(RowOps(i, selected)) == [MenuItems[i]]
    ensures TextsIn(RowOps(i, selected), HighlightColor) == if i == selected then [MenuItems[i]] else []
  {
    var lbl := RowLabel(i, selected);
    if i == selected {
      assert RowOps(i, selected) == [HighlightRect(i)] + ([lbl] + []);
      DrawOpCons(HighlightRect(i), [lbl] + [], HighlightColor);
    } else {
      assert RowOps(i, selected) == [lbl] + [];
    }
    DrawOpCons(lbl, [], HighlightColor);
  }

  /** The first `n` rows write the first `n` labels, in menu order. */
  lemma {:induction false} RowsTexts(n: nat, selected: int)
    requires n <= |MenuItems|
    ensures Texts(Rows(n, selected)) == MenuItems[..n]
  {
    if n > 0 {
      RowsTexts(n - 1, selected);
      RowOpsTexts(n - 1, selected);
      TextsAppend(Rows(n - 1, selected), RowOps(n - 1, selected));
      assert MenuItems[..n] == MenuItems[..n - 1] + [MenuItems[n - 1]];
    }
  }

  /** Among the first `n` rows, only the selected row's label is written in the highlight colour. */
  lemma {:induction false} RowsHighlightedText(n: nat, selected: int)
    requires n <= |MenuItems|
    ensures TextsIn(Rows(n, selected), HighlightColor)
         == if 0 <= selected < n then [MenuItems[selected]] else []
  {
    if n > 0 {
      RowsHighlightedText(n - 1, selected);
      RowOpsTexts(n - 1, selected);
      TextsInAppend(Rows(n - 1, selected), RowOps(n - 1, selected), HighlightColor);
    }
  }

  /** A main-menu frame is the background, the panel and the title, followed by the rows. */
  lemma MainMenuLayout(s: AppState)
    requires s.screen == MainMenu
    ensures Draw(s) == [Fill(BgColor)] + ([Panel()] + ([Blit("Main Menu", TitleFont, TitleColor, MenuWidth + 20, 20)]
                       + Rows(|MenuItems|, s.selectedIndex)))
    ensures forall k :: 3 <= k < |Draw(s)| ==> Draw(s)[k] == Rows(|MenuItems|, s.selectedIndex)[k - 3]
  {
  }

  /**
   * The main menu paints exactly one highlight box when the selection is a
   * valid row (none otherwise), and that box is the selected row's.
   */
  lemma MainMenuOneHighlight(s: AppState)
    requires s.screen == MainMenu
    ensures CountHighlights(Draw(s)) == if Valid(s) then 1 else 0
    ensures forall k :: 0 <= k < |Draw(s)| && IsHighlight(Draw(s)[k]) ==> Draw(s)[k] == HighlightRect(s.selectedIndex)
  {
    var title := Blit("Main Menu", TitleFont, TitleColor, MenuWidth + 20, 20);
    var rows := Rows(|MenuItems|, s.selectedIndex);
    var ops := Draw(s);
    MainMenuLayout(s);
    DrawOpCons(Fill(BgColor), [Panel()] + ([title] + rows), HighlightColor);
    DrawOpCons(Panel(), [title] + rows, HighlightColor);
    DrawOpCons(title, rows, HighlightColor);
    RowsHighlight(|MenuItems|, s.selectedIndex);
    forall k | 0 <= k < |ops| && IsHighlight(ops[k])
      ensures ops[k] == HighlightRect(s.selectedIndex)
    {
      assert !IsHighlight(ops[0]) && !IsHighlight(ops[1]) && !IsHighlight(ops[2]);
      assert ops[k] == rows[k - 3];
    }
  }

  /** The main menu writes its title and then every label in menu order; the selected label alone is highlighted. */
  lemma MainMenuTexts(s: AppState)
    requires s.screen == MainMenu
    ensures Texts(Draw(s)) == ["Main Menu"] + MenuItems
    ensures TextsIn(Draw(s), HighlightColor) == if Valid(s) then [MenuItems[s.selectedIndex]] else []
  {
    var title := Blit("Main Menu", TitleFont, TitleColor, MenuWidth + 20, 20);
    var rows := Rows(|MenuItems|, s.selectedIndex);
    MainMenuLayout(s);
    DrawOpCons(Fill(BgColor), [Panel()] + ([title] + rows), HighlightColor);
    DrawOpCons(Panel(), [title] + rows, HighlightColor);
    DrawOpCons(title, rows, HighlightColor);
    RowsTexts(|MenuItems|, s.selectedIndex);
    RowsHighlightedText(|MenuItems|, s.selectedIndex);
    assert MenuItems[..|MenuItems|] == MenuItems;
  }

  /** The highlight box of row `i` covers row `j`'s label origin exactly when `i == j`. */
  lemma HighlightCoversOwnLabel(i: int, j: int)
    requires 0 <= i < |MenuItems| && 0 <= j < |MenuItems|
    ensures Covers(HighlightRect(i), 25, RowY(j)) <==> i == j
  {
  }

  /** A sub-screen writes the back hint, its title and its body text, and paints no highlight box. */
  lemma SubScreenContents(s: AppState)
    requires s.screen != MainMenu
    ensures Texts(Draw(s)) == ["ESC: Back", ScreenTitle(s.screen), ScreenSubtitle(s.screen)]
    ensures CountHighlights(Draw(s)) == 0
  {
    var title := ScreenTitle(s.screen);
    var subtitle := ScreenSubtitle(s.screen);
    var back := Blit("ESC: Back", MenuFont, TextColor, 15, ScreenHeight - 35);
    var t := Blit(title, TitleFont, TitleColor, MenuWidth + 20, 40);
    var b := Blit(subtitle, MenuFont, TextColor, MenuWidth + 20, 80);
    assert Draw(s) == [Fill(BgColor)] + ([Panel()] + ([back] + ([t] + ([b] + []))));
    DrawOpCons(Fill(BgColor), [Panel()] + ([back] + ([t] + ([b] + []))), HighlightColor);
    DrawOpCons(Panel(), [back] + ([t] + ([b] + [])), HighlightColor);
    DrawOpCons(back, [t] + ([b] + []), HighlightColor);
    DrawOpCons(t, [b] + [], HighlightColor);
    DrawOpCons(b, [], HighlightColor);
  }

  /** The sub-screen that Return opens is titled with the label of the row that was selected. */
  lemma ActivatedScreenTitle(s: AppState)
    requires Valid(s) && s.screen == MainMenu
    ensures Step(s, KeyDown(Return)).screen != MainMenu
    ensures ScreenTitle(Step(s, KeyDown(Return)).screen) == MenuItems[s.selectedIndex]
    ensures Texts(Draw(Step(s, KeyDown(Return))))
         == ["ESC: Back", MenuItems[s.selectedIndex], ScreenSubtitle(Step(s, KeyDown(Return)).screen)]
  {
    SubScreenContents(Step(s, KeyDown(Return)));
  }

  /** Every operation of the first `n` menu rows lies on the surface. */
  lemma {:induction false} RowsOnSurface(n: nat, selected: int)
    requires n <= |MenuItems|
    ensures forall k :: 0 <= k < |Rows(n, selected)| ==> OnSurface(Rows(n, selected)[k])
  {
    if n > 0 {
      RowsOnSurface(n - 1, selected);
      var i := n - 1;
      assert 0 <= RowY(i) <= RowY(|MenuItems| - 1);
      assert forall k :: 0 <= k < |RowOps(i, selected)| ==> OnSurface(RowOps(i, selected)[k]);
    }
  }

  /** Every operation of every frame stays on the 480 x 320 surface. */
  lemma DrawOnSurface(s: AppState)
    ensures forall k :: 0 <= k < |Draw(s)| ==> OnSurface(Draw(s)[k])
  {
    if s.screen == MainMenu {
      RowsOnSurface(|MenuItems|, s.selectedIndex);
      MainMenuLayout(s);
    }
  }
}
