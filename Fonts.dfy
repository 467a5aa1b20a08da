// The data shapes shared by every view of fonts (Font.h): the style and
// variant enumerations, the descriptor of a concrete font and the properties
// of a request.
module Fonts {

  datatype Option<T> = None | Some(value: T)

  datatype FontStyle = Normal | Italic | Oblique

  /** FontVariant; NormalVariant is FontVariant::Normal. */
  datatype FontVariant = NormalVariant | SmallCaps

  /** The weight fields are uint16_t. */
  type Weight = w: int | 0 <= w < 0x1_0000

  /** FontBase's default weight. */
  const DefaultWeight: Weight := 400

  /** A descriptor holds either a path (url) or an in-memory copy (data). */
  datatype FontSource = Url(path: string) | Data(bytes: seq<bv8>)

  /** FontDescriptor: a real font, as the OS or a registered face describes it. */
  datatype FontDescriptor = FontDescriptor(
    family: string,
    weight: Weight,
    variant: FontVariant,
    style: FontStyle,
    source: FontSource)

  /** FontProperties: what a CSS font shorthand asks for. The size field is
      not used by the matching code and is left out. */
  datatype FontProperties = FontProperties(
    families: seq<string>,
    weight: Weight,
    variant: FontVariant,
    style: FontStyle)

  /** The FontBase defaults for a request of the given families. */
  function DefaultProperties(families: seq<string>): (p: FontProperties)
    ensures p.families == families && p.weight == 400
    ensures p.style == Normal && p.variant == NormalVariant
  {
    FontProperties(families, DefaultWeight, NormalVariant, Normal)
  }

  /** Descriptors are compared by address in the source: a handle is the
      index of a descriptor in the arena of all live descriptors (the system
      list and the registered faces), and two handles are the same font
      exactly when they are equal. */
  type Handle = nat

  type Arena = seq<FontDescriptor>

  predicate InArena(arena: Arena, hs: seq<Handle>) {
    forall i :: 0 <= i < |hs| ==> hs[i] < |arena|
  }

  function StyleOf(arena: Arena, h: Handle): FontStyle
    requires h < |arena|
  {
    arena[h].style
  }

  function WeightOf(arena: Arena, h: Handle): Weight
    requires h < |arena|
  {
    arena[h].weight
  }
}
