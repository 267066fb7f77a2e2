/** The navigation bar: two controls, each of which asks for a view change. */
module Navbar {
  import opened Types

  /** The logo on the left and the single button on the right. */
  datatype Control = Logo | ActionButton

  /** The view a click on `control` asks for, given the view on screen. */
  function Target(current: ViewState, control: Control): (v: ViewState)
    ensures v != AdminDashboard
    ensures control == Logo ==> v == Home
    ensures control == ActionButton && current == AdminDashboard ==> v == Home
    ensures control == ActionButton && current != AdminDashboard ==> v == AdminLogin
  {
    match control
    case Logo => Home
    case ActionButton => if current == AdminDashboard then Home else AdminLogin
  }
}
