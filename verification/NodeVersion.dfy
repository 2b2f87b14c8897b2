/** Packed version numbers of node.h against the order node_version.h spells out. */
module NodeVersion {

  datatype Version = Version(major: nat, minor: nat, patch: nat)

  /** `NODE_MAKE_VERSION` */
  function MakeVersion(v: Version): nat { v.major * 0x1000 + v.minor * 0x100 + v.patch }

  /** The comparison of `NODE_CLANG_AT_LEAST` and `NODE_GNUC_AT_LEAST`. */
  predicate PackedAtMost(v: Version, w: Version) { MakeVersion(v) <= MakeVersion(w) }

  /** The order of `NODE_VERSION_AT_LEAST`. */
  predicate AtMost(v: Version, w: Version) {
    || v.major < w.major
    || (v.major == w.major && v.minor < w.minor)
    || (v.major == w.major && v.minor == w.minor && v.patch <= w.patch)
  }

  predicate Within(v: Version, minors: nat, patches: nat) { v.minor < minors && v.patch < patches }

  ghost predicate OrdersAgree(minors: nat, patches: nat) {
    forall v, w | Within(v, minors, patches) && Within(w, minors, patches) :: PackedAtMost(v, w) <==> AtMost(v, w)
  }

  /**
   With so many minor and patch numbers, packed comparison is the lexicographic order exactly when
   no minor step overtakes a major one and no patch a minor one; sixteen minors of 256 patches do.
   */
  lemma PackingOrdersExactly(minors: nat, patches: nat)
    requires minors > 0 && patches > 0
    ensures OrdersAgree(minors, patches) <==> (minors == 1 || patches <= 0x100) && 0x100 * (minors - 1) + patches <= 0x1000
  {
    if OrdersAgree(minors, patches) {
      var last, next := Version(0, minors - 1, patches - 1), Version(1, 0, 0);
      assert Within(last, minors, patches) && Within(next, minors, patches);
      assert PackedAtMost(next, last) <==> AtMost(next, last);
      if minors > 1 {
        var patch, minor := Version(0, 0, patches - 1), Version(0, 1, 0);
        assert Within(patch, minors, patches) && Within(minor, minors, patches);
        assert PackedAtMost(minor, patch) <==> AtMost(minor, patch);
      }
    }
  }
}
