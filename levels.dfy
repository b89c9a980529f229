/** The samplog severity flags. In the source a level is an unsigned int whose
    bits are independent flags; here a mask is the set of positions of its set
    bits, so C++ `&` is set intersection, `|` is union and `& ~` is difference.
    A single level is a singleton set: DEBUG (value 1) is {0}, INFO (2) is {1},
    WARNING (4) {2}, ERROR (8) {3}, FATAL (16) {4}, VERBOSE (32) {5}. */
module LogLevels {

  /** A bit position of a 32-bit unsigned int. */
  type Bit = i: nat | i < 32

  type Mask = set<Bit>

  const NONE: Mask := {}
  const DEBUG: Mask := {0}
  const INFO: Mask := {1}
  const WARNING: Mask := {2}
  const ERROR: Mask := {3}
  const FATAL: Mask := {4}
  const VERBOSE: Mask := {5}

  /** The six named single levels. */
  predicate IsNamedLevel(l: Mask)
  {
    l == DEBUG || l == INFO || l == WARNING || l == ERROR || l == FATAL || l == VERBOSE
  }

  /** The containment test every revision writes as `(mask & l) == l`. */
  predicate Enables(mask: Mask, l: Mask)
  {
    mask * l == l
  }

  /** Enables is the subset order: every bit of `l` is set in `mask`. */
  lemma EnablesIsSubset(mask: Mask, l: Mask)
    ensures Enables(mask, l) <==> l <= mask
  {
    if l <= mask {
      assert mask * l == l;
    }
  }

  /** NONE is enabled by every mask. */
  lemma NoneAlwaysEnabled(mask: Mask)
    ensures Enables(mask, NONE)
  {
  }
}

/** src/loglevel.hpp: an older four-level enum whose `operator&` is the
    containment test and whose `operator|=` returns the union by value. */
module LevelOperators {
  import opened LogLevels

  /** `lhs & rhs`: true exactly when every bit of `rhs` is set in `lhs`. */
  function ContainsAll(lhs: Mask, rhs: Mask): (r: bool)
    ensures r <==> rhs <= lhs
  {
    EnablesIsSubset(lhs, rhs);
    lhs * rhs == rhs
  }

  /** `lhs |= rhs`: both operands are taken by const value and the union is
      returned. Measured by the enum's own `&`, the result is the least
      mask containing both operands. */
  function OrAssign(lhs: Mask, rhs: Mask): (r: Mask)
    ensures ContainsAll(r, lhs) && ContainsAll(r, rhs)
    ensures forall m: Mask :: ContainsAll(m, lhs) && ContainsAll(m, rhs) ==> ContainsAll(m, r)
  {
    lhs + rhs
  }

  /** `x & NONE` holds for every x, and `NONE & x` only for x == NONE. */
  lemma NoneContainment(x: Mask)
    ensures ContainsAll(x, NONE)
    ensures ContainsAll(NONE, x) <==> x == NONE
  {
  }

  /** `a |= b;` used as a statement discards the union, so `a` keeps its value;
      the union would equal `a` only when `b` already lies inside `a`. */
  lemma OrAssignIsIdentityOnlyWhenContained(a: Mask, b: Mask)
    ensures OrAssign(a, b) == a <==> ContainsAll(a, b)
  {
    if OrAssign(a, b) == a {
      assert b <= a;
    }
  }
}

/** libs/g3log/src/g2loglevels.hpp/.cpp: the bundled g3log level flags with
    their set/unset helpers and the name table. Values as bit-position sets:
    FATAL_SIGNAL (1024) is {10}, FATAL_EXCEPTION (1025) is {0, 10}. */
module G2LogLevels {
  import opened LogLevels

  type Level = Mask

  const FATAL_SIGNAL: Level := {10}
  const FATAL_EXCEPTION: Level := {0, 10}

  /** `logLevel(src, check)`: `(src & check) == check`. */
  predicate LogLevel(src: Level, check: Level)
  {
    src * check == check
  }

  /** `wasFatal`: the FATAL bit (value 16) is set. */
  predicate WasFatal(l: Level)
  {
    LogLevel(l, FATAL)
  }

  /** logLevel(src, c) holds exactly when every bit of c is set in src. */
  lemma LogLevelIsSubset(src: Level, c: Level)
    ensures LogLevel(src, c) <==> c <= src
  {
    EnablesIsSubset(src, c);
  }

  /** `setLogLevel(src, target)` updates `src` through its reference: the
      result enables `target` and every previously set bit, and nothing else. */
  method SetLogLevel(src: Level, target: Level) returns (src': Level)
    ensures LogLevel(src', target)
    ensures LogLevel(src', src)
    ensures forall b :: b in src' ==> b in src || b in target
  {
    src' := src + target;
    LogLevelIsSubset(src', target);
    LogLevelIsSubset(src', src);
  }

  /** `unsetLogLevel(src, target)` updates `src` through its reference: no bit
      of `target` remains, every bit outside `target` is unchanged. */
  method UnsetLogLevel(src: Level, target: Level) returns (src': Level)
    ensures target != NONE ==> !LogLevel(src', target)
    ensures forall b :: b !in target ==> (b in src' <==> b in src)
    ensures src' * target == NONE
  {
    src' := src - target;
    LogLevelIsSubset(src', target);
    if target != NONE {
      var b :| b in target;
      assert b !in src';
    }
  }

  /** `getLevelName`: the five named levels have their upper-case name, every
      other value (NONE, the two signal levels, combinations) the empty string. */
  function GetLevelName(l: Level): (name: string)
    ensures name != "" <==> l == DEBUG || l == INFO || l == WARNING || l == ERROR || l == FATAL
  {
    if l == DEBUG then "DEBUG"
    else if l == INFO then "INFO"
    else if l == WARNING then "WARNING"
    else if l == ERROR then "ERROR"
    else if l == FATAL then "FATAL"
    else ""
  }

  /** The signal levels are not fatal by the FATAL-bit test, and
      FATAL_EXCEPTION (1025) carries the DEBUG bit. */
  lemma SignalLevelsNotFatal()
    ensures !WasFatal(FATAL_SIGNAL) && !WasFatal(FATAL_EXCEPTION)
    ensures LogLevel(FATAL_EXCEPTION, DEBUG)
    ensures GetLevelName(FATAL_SIGNAL) == "" && GetLevelName(FATAL_EXCEPTION) == ""
  {
    assert 4 !in FATAL_SIGNAL && 4 !in FATAL_EXCEPTION;
    assert FATAL_SIGNAL * FATAL == {};
    assert FATAL_EXCEPTION * FATAL == {};
    assert FATAL_EXCEPTION * DEBUG == DEBUG;
    assert 10 in FATAL_SIGNAL && 10 in FATAL_EXCEPTION;
  }

  /** Setting a flag twice is setting it once; set followed by unset restores
      a mask in which the flag was clear. */
  lemma SetUnsetAlgebra(src: Level, t: Level)
    ensures (src + t) + t == src + t
    ensures src * t == NONE ==> (src + t) - t == src
  {
    if src * t == NONE {
      forall b | b in src ensures b !in t {
        assert b !in src * t;
      }
    }
  }

  /** The five names are pairwise distinct. */
  lemma LevelNamesDistinct(a: Level, b: Level)
    requires GetLevelName(a) != "" && a != b
    ensures GetLevelName(a) != GetLevelName(b)
  {
  }
}
