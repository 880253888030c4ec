// A non-empty set has an element. The verifier needs this spelled out before
// it accepts a choice.
module Sets {
  lemma Element<T>(s: set<T>) returns (x: T)
    requires s != {}
    ensures x in s
  {
    x :| x in s;
  }
}
