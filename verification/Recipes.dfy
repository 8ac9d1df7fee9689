/** What a recipe says about other packages. */
module Recipes {

  type Name = string

  datatype Recipe = Recipe(hostdeps: seq<Name>, hostrundeps: seq<Name>, deps: seq<Name>, builddeps: seq<Name>,
                           fromSource: seq<Name>, hasOwnSource: bool)
}
