// The Racket support snippets the transpiler may prepend to its output,
// one per build flag, and the table of flags each flag depends on.

module ExtraCodes {

  /** The keys of `Builder.buildFlags` and of `FlagRequirements.requirements`. */
  datatype Flag =
    | NAME_IS_MAIN
    | PRINT
    | EQUAL
    | NOT_EQUAL
    | IN
    | INPUT
    | GROWABLE_VECTOR_REQUIRE
    | GROWABLE_VECTOR
    | DEEPCOPY
    | TO_INT
    | TO_FLOAT
    | TO_STR
    | TO_BOOL
    | TO_LIST

  /** `FlagRequirements.requirements`: the flags whose snippets a flag's own
      snippet relies on. */
  const Requirements: map<Flag, set<Flag>> := map[
    NAME_IS_MAIN := {},
    PRINT := {},
    EQUAL := {},
    NOT_EQUAL := {},
    IN := {GROWABLE_VECTOR_REQUIRE, NOT_EQUAL},
    INPUT := {},
    GROWABLE_VECTOR_REQUIRE := {},
    GROWABLE_VECTOR := {GROWABLE_VECTOR_REQUIRE},
    DEEPCOPY := {GROWABLE_VECTOR_REQUIRE},
    TO_INT := {},
    TO_FLOAT := {},
    TO_STR := {},
    TO_BOOL := {NOT_EQUAL},
    TO_LIST := {GROWABLE_VECTOR_REQUIRE}
  ]

  /** The `extraC` constant of the same name as the flag. */
  function Snippet(f: Flag): string
  {
    match f
    case NAME_IS_MAIN => "(define __name__ \"__main__\")"
    case PRINT =>
      "(define (PRINT . args) (for-each (lambda (x i) (unless (= i 0) (display \" \")) (display x)) args (range (length args)))(newline))"
    case EQUAL => "(define (== a b) (if (and (number? a) (number? b)) (= a b) (equal? a b)))"
    case NOT_EQUAL => "(define (!= a b) (if (and (number? a) (number? b)) (not (= a b)) (not (equal? a b))))"
    case IN =>
      "(define (in? elem coll) (cond ((gvector? coll) (!= (vector-member elem (gvector->vector coll)) #f)) ((vector? coll) (!= (vector-member elem coll) #f)) (else (raise \"Argument is not iterable\" #t))))"
    case INPUT => "(define (input prompt) (display prompt)(read-line))"
    case GROWABLE_VECTOR_REQUIRE => "(require data/gvector)"
    case GROWABLE_VECTOR =>
      "(define (safe-gvector-set! vec i elm) (if (< i (gvector-count vec)) (gvector-set! vec i elm) (raise \"IndexError: list assignment index out of range\" #t)))\n"
      + "(define (gvector-pop! vec i) (define ret (gvector-ref vec i)) (gvector-remove! vec i)ret)\n"
      + "(define (gvector-access vec i) (if (>= i 0) (gvector-ref vec i) (gvector-ref vec (+ (gvector-count vec) i))))"
    case DEEPCOPY =>
      "(define (deepcopy var) (cond ((gvector? var) (apply gvector (gvector->list var))) ((vector? var) (apply vector-immutable (vector var))) (else var)))"
    case TO_INT =>
      "(define (int x)(cond ((number? x) (exact-floor x)) ((string? x) (exact-floor (string->number x))) ((boolean? x) (if x 1 0))))"
    case TO_FLOAT =>
      "(define (float x)(cond ((number? x) (exact->inexact x)) ((string? x) (exact->inexact (string->number x))) ((boolean? x) (if x 1.0 0.0))))"
    case TO_STR =>
      "(define (str x)(cond ((number? x) (number->string x)) ((string? x) x) ((boolean? x) (if x \"True\" \"False\"))))"
    case TO_BOOL => "(define (bool x)(cond ((number? x) (!= x 0)) ((string? x) (!= x \"\")) ((boolean? x) x)))"
    case TO_LIST =>
      "(define (toList x) (cond ((gvector? x) (gvector->list x)) ((vector? x) (vector->list x)) (else (raise \"Can not convert object to list\" #t))))"
  }

  /** Every flag is a key of the table, and every flag a table entry names
      is a key too: the converter's lookup never fails. */
  lemma TableIsTotal()
    ensures forall f: Flag :: f in Requirements
    ensures forall f, r :: f in Requirements && r in Requirements[f] ==> r in Requirements
  {
    forall f: Flag
      ensures f in Requirements
    {
      match f
      case NAME_IS_MAIN => {}
      case PRINT => {}
      case EQUAL => {}
      case NOT_EQUAL => {}
      case IN => {}
      case INPUT => {}
      case GROWABLE_VECTOR_REQUIRE => {}
      case GROWABLE_VECTOR => {}
      case DEEPCOPY => {}
      case TO_INT => {}
      case TO_FLOAT => {}
      case TO_STR => {}
      case TO_BOOL => {}
      case TO_LIST => {}
    }
  }

  /** A required flag requires nothing itself: the dependencies are one
      level deep. */
  lemma RequirementsAreLeaves(f: Flag, r: Flag)
    requires r in Requirements[f]
    ensures Requirements[r] == {}
  {
  }
}
