/** The profile plane the clearance tests of test_cq_threads.py and
    test_threads.py draw the strands in: a strand is the point
    (radius + horzOffset, vertOffset), and the external thread's points are
    shifted half a pitch along the axis so they sit between two internal
    threads. */
module ProfilePoints {
  import opened Common
  import opened WingUtils

  /** A strand as a point of the profile, shifted along the axis by `shift`. */
  function ProfilePoint(hl: HelixLocation, shift: real): Pt2 {
    Pt2(hl.radius + hl.horzOffset, hl.vertOffset + shift)
  }
}
