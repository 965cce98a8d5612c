/**
 * The floating button: where it is placed on the screen, and what a press
 * does to its loading state.
 */
module FloatingButton {
  import opened Wrappers

  datatype Position = BottomRight | BottomLeft | TopRight | TopLeft

  /** The edges a style sets; an edge it leaves out is `None`. */
  datatype PositionStyle = PositionStyle(top: Option<int>, bottom: Option<int>, left: Option<int>, right: Option<int>)

  /** Room left below a bottom button for the tab bar. */
  const TabBarHeight: int := 50
  /** The offset the button passes, and its default position. */
  const ButtonOffset: int := 16
  const DefaultPosition: Position := BottomRight

  predicate IsBottom(p: Position) {
    p == BottomRight || p == BottomLeft
  }

  predicate IsRight(p: Position) {
    p == BottomRight || p == TopRight
  }

  /**
   * `getPositionStyle`: one vertical and one horizontal edge. A bottom button
   * clears the tab bar and the safe-area inset; a top button ignores the inset.
   */
  function GetPositionStyle(position: Position, offset: int, bottomInset: int): (r: PositionStyle)
    ensures r.top.Some? != r.bottom.Some? && r.left.Some? != r.right.Some?
    ensures r.bottom.Some? <==> IsBottom(position)
    ensures r.right.Some? <==> IsRight(position)
    ensures r.bottom.Some? ==> r.bottom.value == offset + bottomInset + TabBarHeight
    ensures r.top.Some? ==> r.top.value == offset
    ensures r.left.Some? ==> r.left.value == offset
    ensures r.right.Some? ==> r.right.value == offset
  {
    var bottomOffset := offset + bottomInset + TabBarHeight;
    match position
    case BottomRight => PositionStyle(None, Some(bottomOffset), None, Some(offset))
    case BottomLeft => PositionStyle(None, Some(bottomOffset), Some(offset), None)
    case TopRight => PositionStyle(Some(offset), None, None, Some(offset))
    case TopLeft => PositionStyle(Some(offset), None, Some(offset), None)
  }

  /** The same corner on the other side. */
  function Mirror(p: Position): (r: Position)
    ensures IsBottom(r) == IsBottom(p) && IsRight(r) == !IsRight(p)
  {
    match p
    case BottomRight => BottomLeft
    case BottomLeft => BottomRight
    case TopRight => TopLeft
    case TopLeft => TopRight
  }

  /** Moving the button to the other side swaps its left and right edges and keeps its height. */
  lemma MirrorSwapsSides(p: Position, offset: int, bottomInset: int)
    ensures var s := GetPositionStyle(p, offset, bottomInset);
      GetPositionStyle(Mirror(p), offset, bottomInset) == s.(left := s.right, right := s.left)
  {
  }

  /** A top button is placed the same whatever the inset. */
  lemma TopIgnoresInset(p: Position, offset: int, inset1: int, inset2: int)
    requires !IsBottom(p)
    ensures GetPositionStyle(p, offset, inset1) == GetPositionStyle(p, offset, inset2)
  {
  }

  /** With no props, the button sits 16 from the right edge and 66 above the safe area. */
  lemma DefaultPlacement(bottomInset: int)
    ensures GetPositionStyle(DefaultPosition, ButtonOffset, bottomInset)
      == PositionStyle(None, Some(ButtonOffset + TabBarHeight + bottomInset), None, Some(ButtonOffset))
    ensures ButtonOffset + TabBarHeight == 66
  {
  }

  /** What the switch back to the sandbox ends in, which the model takes as given. */
  datatype SwitchOutcome = Reloaded | NoUpdate | Failed

  class AppifexFloatingButton {
    const hasOnPress: bool
    var isLoading: bool
    /** How many times the `onPress` prop has been called. */
    var onPressCalls: nat

    /** A button with its own `onPress` never shows the loading overlay. */
    ghost predicate Valid()
      reads this
    {
      hasOnPress ==> !isLoading
    }

    constructor (onPress: bool)
      ensures Valid()
      ensures hasOnPress == onPress && !isLoading && onPressCalls == 0
    {
      hasOnPress := onPress;
      isLoading, onPressCalls := false, 0;
    }

    /**
     * A press. While loading the button is disabled. With an `onPress` prop
     * the press calls it and returns; otherwise the button loads, and stays
     * loading only if the app reloads.
     */
    method Press(outcome: SwitchOutcome)
      requires Valid()
      modifies this
      ensures Valid()
      ensures old(isLoading) ==> isLoading && onPressCalls == old(onPressCalls)
      ensures !old(isLoading) && hasOnPress ==> onPressCalls == old(onPressCalls) + 1 && !isLoading
      ensures !old(isLoading) && !hasOnPress ==> onPressCalls == old(onPressCalls) && isLoading == (outcome == Reloaded)
    {
      if isLoading {
        return;
      }
      if hasOnPress {
        onPressCalls := onPressCalls + 1;
        return;
      }
      isLoading := true;
      match outcome
      case Reloaded =>
      case NoUpdate =>
        isLoading := false;
      case Failed =>
        isLoading := false;
    }
  }
}
