/** Type paths such as /turf/open/floor. */
module Paths {

  predicate HasPrefix(s: string, p: string) { |p| <= |s| && s[..|p|] == p }

  /** The path is the root or a type below it. */
  predicate AtOrBelow(path: string, root: string) { path == root || HasPrefix(path, root + "/") }
}
