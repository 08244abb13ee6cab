/**
 * The choices useElementStyle (src/hooks/useElement.ts) makes for a card:
 * class name, corner radius, background, border and shadow, and what its
 * mouseenter / mouseleave listeners do to border and shadow. Colours are
 * kept as their source (the palette's card or pattern colour, or gold) with
 * an opacity; the rgba text itself is not modelled.
 */
module CardStyle {

  /** `mod`: an ordinary card, a winner's card, or a card of the sphere view. */
  datatype Mode = Default | Lucky | Sphere

  /** `type`: style a new card and attach listeners, or only restyle. */
  datatype Call = Add | Change

  /** Where a colour comes from: cardColor, patternColor, or the fixed gold rgb(255, 215, 0). */
  datatype Paint = CardColour | PatternColour | Gold

  datatype Tint = Tint(paint: Paint, alpha: real)
  datatype Border = Border(widthPx: nat, tint: Tint)
  datatype Shadow = Shadow(offsetYPx: nat, blurPx: nat, tint: Tint)
  datatype Look = Look(className: string, radiusPx: nat, background: Tint, border: Border, shadow: Shadow)

  datatype HoverEvent = MouseEnter | MouseLeave

  /** The border a card of this mode is given, and which mouseleave puts back. */
  function RestingBorder(mode: Mode): Border {
    if mode == Lucky then Border(2, Tint(Gold, 0.6)) else Border(1, Tint(CardColour, 0.35))
  }

  /** The shadow a card of this mode is given, and which mouseleave puts back. */
  function RestingShadow(mode: Mode): Shadow {
    if mode == Lucky then Shadow(8, 32, Tint(Gold, 0.4)) else Shadow(4, 16, Tint(CardColour, 0.3))
  }

  /**
   * The look useElementStyle gives a card. `random` is the value Math.random()
   * returns for the background opacity (drawn only for non-winner cards).
   */
  function Style(mode: Mode, index: int, patternList: seq<int>, random: real): (look: Look)
    requires 0.0 <= random < 1.0
    ensures look.background.paint == PatternColour <==> (index + 1) in patternList && mode == Default
    ensures look.background.paint == PatternColour ==> 0.8 <= look.background.alpha < 1.0
    ensures mode != Lucky && look.background.paint == CardColour ==> 0.2 <= look.background.alpha < 0.6
    ensures mode == Lucky <==> look.background.paint == CardColour && look.background.alpha == 0.85
    ensures look.border.tint.paint == Gold <==> mode == Lucky
    ensures look.shadow.tint.paint == Gold <==> mode == Lucky
    ensures look.border == RestingBorder(mode) && look.shadow == RestingShadow(mode)
    ensures look.className == (if mode == Lucky then "lucky-element-card" else "element-card")
    ensures look.radiusPx == (if mode == Lucky then 16 else 12)
  {
    var radius := if mode == Lucky then 16 else 12;
    if mode == Lucky then
      Look("lucky-element-card", radius, Tint(CardColour, 0.85), RestingBorder(mode), RestingShadow(mode))
    else
      var background := if (index + 1) in patternList && mode == Default
                        then Tint(PatternColour, random * 0.2 + 0.8)
                        else Tint(CardColour, random * 0.4 + 0.2);
      Look("element-card", radius, background, RestingBorder(mode), RestingShadow(mode))
  }

  /** What the mouseenter listener does. */
  function OnEnter(mode: Mode, look: Look): Look {
    if mode == Lucky then look.(shadow := Shadow(12, 40, Tint(Gold, 0.5)))
    else look.(border := Border(1, Tint(CardColour, 0.6)), shadow := Shadow(8, 24, Tint(CardColour, 0.4)))
  }

  /** What the mouseleave listener does. */
  function OnLeave(mode: Mode, look: Look): Look {
    if mode == Lucky then look.(shadow := Shadow(8, 32, Tint(Gold, 0.4)))
    else look.(border := Border(1, Tint(CardColour, 0.35)), shadow := Shadow(4, 16, Tint(CardColour, 0.3)))
  }

  /** The look after a series of hover events; listeners are attached only by an `Add` call. */
  function AfterHover(call: Call, mode: Mode, look: Look, events: seq<HoverEvent>): Look
    decreases |events|
  {
    if call == Change || events == [] then look
    else
      var next := if events[0] == MouseEnter then OnEnter(mode, look) else OnLeave(mode, look);
      AfterHover(call, mode, next, events[1..])
  }

  /** A winner's card looks the same whatever its index, the pattern list or the random draw. */
  lemma LuckyLookFixed(index: int, patternList: seq<int>, random: real, index': int, patternList': seq<int>, random': real)
    requires 0.0 <= random < 1.0 && 0.0 <= random' < 1.0
    ensures Style(Lucky, index, patternList, random) == Style(Lucky, index', patternList', random')
    ensures Style(Lucky, index, patternList, random).className == "lucky-element-card"
    ensures Style(Lucky, index, patternList, random).radiusPx == 16
  {
  }

  /** Every other card is an "element-card" with 12px corners. */
  lemma OrdinaryLook(mode: Mode, index: int, patternList: seq<int>, random: real)
    requires mode != Lucky && 0.0 <= random < 1.0
    ensures Style(mode, index, patternList, random).className == "element-card"
    ensures Style(mode, index, patternList, random).radiusPx == 12
  {
  }

  /** mouseleave undoes mouseenter: entering and then leaving a freshly styled card changes nothing. */
  lemma LeaveUndoesEnter(mode: Mode, index: int, patternList: seq<int>, random: real)
    requires 0.0 <= random < 1.0
    ensures OnLeave(mode, OnEnter(mode, Style(mode, index, patternList, random))) == Style(mode, index, patternList, random)
  {
  }

  /**
   * Whatever the hover events, an `Add` card ends in its resting look when the
   * last event was mouseleave and in the entered look when it was mouseenter,
   * starting from either; a `Change` call attaches no listeners.
   */
  lemma {:induction false} HoverSettles(call: Call, mode: Mode, look: Look, current: Look, events: seq<HoverEvent>)
    requires look.border == RestingBorder(mode) && look.shadow == RestingShadow(mode)
    requires current == look || current == OnEnter(mode, look)
    ensures call == Change || events == [] ==> AfterHover(call, mode, current, events) == current
    ensures call == Add && events != [] && events[|events| - 1] == MouseLeave
            ==> AfterHover(call, mode, current, events) == look
    ensures call == Add && events != [] && events[|events| - 1] == MouseEnter
            ==> AfterHover(call, mode, current, events) == OnEnter(mode, look)
    decreases |events|
  {
    if call == Add && events != [] {
      var next := if events[0] == MouseEnter then OnEnter(mode, current) else OnLeave(mode, current);
      assert events[0] == MouseEnter ==> next == OnEnter(mode, look);
      assert events[0] == MouseLeave ==> next == look;
      HoverSettles(call, mode, look, next, events[1..]);
      if |events| > 1 {
        assert events[1..][|events[1..]| - 1] == events[|events| - 1];
      }
    }
  }

  /** A card fresh from useElementStyle settles back to exactly that look after a final mouseleave. */
  lemma StyledCardSettles(call: Call, mode: Mode, index: int, patternList: seq<int>, random: real,
                          events: seq<HoverEvent>)
    requires 0.0 <= random < 1.0
    requires events != [] && events[|events| - 1] == MouseLeave
    ensures AfterHover(call, mode, Style(mode, index, patternList, random), events)
            == Style(mode, index, patternList, random)
  {
    var look := Style(mode, index, patternList, random);
    HoverSettles(call, mode, look, look, events);
  }
}
