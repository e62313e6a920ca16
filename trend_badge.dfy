/** The trend badge: the direction of a change and the icon, colour and tooltip
    chosen from it. */
module TrendBadge {

  predicate IsUp(delta: real) { delta > 0.0 }

  predicate IsDown(delta: real) { delta < 0.0 }

  /** Up and down exclude each other, and a zero change is neither. */
  lemma DirectionExclusive(delta: real)
    ensures !(IsUp(delta) && IsDown(delta))
    ensures !IsUp(delta) && !IsDown(delta) <==> delta == 0.0
  {
  }

  datatype Icon = ArrowUp | ArrowDown | Zap

  function TrendIcon(delta: real): (icon: Icon)
    ensures icon == ArrowUp <==> IsUp(delta)
    ensures icon == ArrowDown <==> IsDown(delta)
    ensures icon == Zap <==> delta == 0.0
  {
    if IsUp(delta) then ArrowUp else if IsDown(delta) then ArrowDown else Zap
  }

  /** The icon's colour class. */
  function TrendColor(delta: real): (color: string)
    ensures color == "text-green-500" <==> IsUp(delta)
    ensures color == "text-red-500" <==> IsDown(delta)
    ensures color == "text-gray-400" <==> delta == 0.0
  {
    if IsUp(delta) then "text-green-500" else if IsDown(delta) then "text-red-500" else "text-gray-400"
  }

  const IncreasedPrefix := "Increased compared to previous period ("
  const DecreasedPrefix := "Decreased compared to previous period ("

  /** The tooltip, with the previous value already printed as `prevShown`. Only
      an increase says "Increased"; no change reads as a decrease. */
  function Tooltip(delta: real, prevShown: string): (text: string)
    ensures IsUp(delta) ==> text == IncreasedPrefix + prevShown + " feeds)"
    ensures !IsUp(delta) ==> text == DecreasedPrefix + prevShown + " feeds)"
  {
    (if IsUp(delta) then IncreasedPrefix else DecreasedPrefix) + prevShown + " feeds)"
  }

  /** The tooltip begins with "Increased" exactly when the change is positive,
      and the icon and colour always agree on the direction. */
  lemma BadgeConsistent(delta: real, prevShown: string)
    ensures Tooltip(delta, prevShown)[..9] == "Increased" <==> IsUp(delta)
    ensures TrendIcon(delta) == ArrowUp <==> TrendColor(delta) == "text-green-500"
    ensures TrendIcon(delta) == ArrowDown <==> TrendColor(delta) == "text-red-500"
  {
    var t := Tooltip(delta, prevShown);
    if !IsUp(delta) {
      assert t[0] == 'D';
    }
  }
}
