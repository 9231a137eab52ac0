/** Whether a spline's ends are free (Open) or joined into a loop (Close). */
module EndTypes {
  datatype EndType = Open | Close
}
