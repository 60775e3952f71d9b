// Calls to another system, as the caller sees them.
module Effects {

  // A deadline. Once it has passed it stays passed, and calls made under it fail without effect.
  class Context {
    var expired: bool

    constructor ()
      ensures !expired
    {
      expired := false;
    }

    // Time passes.
    method Pass()
      modifies this
      ensures old(expired) ==> expired
    {
      var now: bool := *;
      expired := expired || now;
    }
  }

  // An acknowledged call has happened; one that failed may have happened too.
  method Attempt() returns (landed: bool, acked: bool)
    ensures acked ==> landed
  {
    landed, acked := *, *;
    acked := acked && landed;
  }
}
