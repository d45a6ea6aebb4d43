/** The presentation of one trigger (`Tab`): the class tokens chosen from the primitive's
    `isSelected`/`isDisabled` flags and the orientation the trigger inherits from its group.
    Each token stands for one group of utility classes; the indicator is the bar drawn by the
    trigger's `::after` pseudo-element. */
module TabIndicator {

  datatype Axis = X | Y

  datatype Token =
    | TabBase          // layout, padding, text size, transition
    | FocusRing        // focus-visible ring
    | IndicatorBar     // the bar itself: absolute, rounded, coloured, animated
    | AnchorBottom     // bar spans the width along the bottom edge
    | SelectedText     // selected trigger's text and border colour
    | Opacity(percent: nat)
    | Scale(axis: Axis, percent: nat)
    | RestingText      // enabled, unselected trigger's text colour and hover background
    | DisabledText     // disabled trigger's text colour
    | IndicatorHidden  // bar not displayed at all
    | AnchorLeft       // left padding; bar spans the height along the left edge

  /** `tokens` when `c` holds, nothing otherwise (a `cond && 'classes'` argument). */
  function When(c: bool, tokens: set<Token>): set<Token> {
    if c then tokens else {}
  }

  /** The axis the indicator scales along: height for a vertical group, width otherwise. */
  function AxisOf(isParentVertical: bool): Axis {
    if isParentVertical then Y else X
  }

  /** The class tokens of one trigger. */
  function TabClasses(isSelected: bool, isDisabled: bool, isParentVertical: bool): (r: set<Token>)
    ensures {TabBase, FocusRing, IndicatorBar} <= r
    ensures AnchorBottom in r <==> !isParentVertical
    ensures AnchorLeft in r <==> isParentVertical
    ensures IndicatorHidden in r <==> isDisabled
    ensures Opacity(100) in r <==> isSelected
    ensures Opacity(0) in r <==> !isSelected && !isDisabled
    ensures forall p :: Opacity(p) in r ==> p == 0 || p == 100
    ensures forall a, p :: Scale(a, p) in r <==>
      a == AxisOf(isParentVertical) && ((isSelected && p == 100) || (!isSelected && !isDisabled && p == 75))
  {
    {TabBase, FocusRing, IndicatorBar}
    + When(!isParentVertical, {AnchorBottom})
    + When(isSelected, {SelectedText, Opacity(100)})
    + When(isSelected && isParentVertical, {Scale(Y, 100)})
    + When(isSelected && !isParentVertical, {Scale(X, 100)})
    + When(!isSelected && !isDisabled, {RestingText, Opacity(0)})
    + When(!isSelected && !isDisabled && isParentVertical, {Scale(Y, 75)})
    + When(!isSelected && !isDisabled && !isParentVertical, {Scale(X, 75)})
    + When(isDisabled, {DisabledText, IndicatorHidden})
    + When(isParentVertical, {AnchorLeft})
  }

  datatype Edge = Bottom | Left

  /** How the indicator shows: not at all, faded out at 75% extent, or opaque at full extent. */
  datatype Visibility = Hidden | Resting | Highlighted

  /** What a reader of the rendered trigger sees of its indicator. */
  datatype Indicator = Indicator(edge: Edge, axis: Axis, visibility: Visibility)

  /** The intended indicator: anchored to the bottom edge and scaling along X in a horizontal
      group, to the left edge along Y in a vertical one; hidden when disabled, highlighted when
      selected, resting otherwise. */
  function Intended(isSelected: bool, isDisabled: bool, isParentVertical: bool): Indicator {
    Indicator(if isParentVertical then Left else Bottom,
              AxisOf(isParentVertical),
              if isDisabled then Hidden else if isSelected then Highlighted else Resting)
  }

  /** Reads the indicator off a set of tokens: `hidden` overrides the opacity and scale
      classes; otherwise full opacity with a full-extent scale reads as highlighted, zero
      opacity with a 75% scale as resting. */
  function Shown(tokens: set<Token>, axis: Axis): (v: Visibility)
    requires IndicatorHidden in tokens || (Opacity(100) in tokens && Scale(axis, 100) in tokens)
             || (Opacity(0) in tokens && Scale(axis, 75) in tokens)
  {
    if IndicatorHidden in tokens then Hidden
    else if Opacity(100) in tokens && Scale(axis, 100) in tokens then Highlighted
    else Resting
  }

  /** The tokens chosen for a trigger produce the intended indicator, for all three flags. */
  lemma ClassesRealiseIntended(isSelected: bool, isDisabled: bool, isParentVertical: bool)
    ensures AnchorLeft in TabClasses(isSelected, isDisabled, isParentVertical)
      <==> Intended(isSelected, isDisabled, isParentVertical).edge == Left
    ensures AnchorBottom in TabClasses(isSelected, isDisabled, isParentVertical)
      <==> Intended(isSelected, isDisabled, isParentVertical).edge == Bottom
    ensures Shown(TabClasses(isSelected, isDisabled, isParentVertical), Intended(isSelected, isDisabled, isParentVertical).axis)
      == Intended(isSelected, isDisabled, isParentVertical).visibility
  {
  }
}
