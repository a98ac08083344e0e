/**
 * danogl.gui.mouse.MouseButton: AWT button numbers to the engine's button
 * names. `MouseEvent.BUTTON1..3` are 1, 2 and 3; the wheel-side buttons are
 * numbered 4 to 7.
 */
module MouseButtons {
  import opened Wrappers

  datatype MouseButton = LeftButton | RightButton | MiddleButton | Button4 | Button5 | Button6 | Button7

  /** The AWT number each button is reported under. */
  function ButtonCode(b: MouseButton): (code: int)
    ensures 1 <= code <= 7
  {
    match b
    case LeftButton => 1
    case MiddleButton => 2
    case RightButton => 3
    case Button4 => 4
    case Button5 => 5
    case Button6 => 6
    case Button7 => 7
  }

  /** `mouseIntToMouseButton`: null (`None`) for any number outside 1..7. */
  function MouseIntToMouseButton(button: int): (r: Option<MouseButton>)
    ensures r.None? <==> button < 1 || button > 7
    ensures button == 1 ==> r == Some(LeftButton)
    ensures button == 2 ==> r == Some(MiddleButton)
    ensures button == 3 ==> r == Some(RightButton)
  {
    if button == 1 then Some(LeftButton)
    else if button == 2 then Some(MiddleButton)
    else if button == 3 then Some(RightButton)
    else if button == 4 then Some(Button4)
    else if button == 5 then Some(Button5)
    else if button == 6 then Some(Button6)
    else if button == 7 then Some(Button7)
    else None
  }

  /** The mapping and `ButtonCode` are inverse to each other, so the mapping is injective on 1..7. */
  lemma MappingRoundTrip(b: MouseButton, code: int)
    ensures MouseIntToMouseButton(ButtonCode(b)) == Some(b)
    ensures 1 <= code <= 7 ==> ButtonCode(MouseIntToMouseButton(code).value) == code
  {
  }

  lemma MappingInjective(c1: int, c2: int)
    requires MouseIntToMouseButton(c1).Some? && MouseIntToMouseButton(c1) == MouseIntToMouseButton(c2)
    ensures c1 == c2
  {
    MappingRoundTrip(MouseIntToMouseButton(c1).value, c1);
    MappingRoundTrip(MouseIntToMouseButton(c2).value, c2);
  }
}
