# Models of the XML object, storage and transport layers of XMLTooling

The Dafny files in this directory model the stateful core of XMLTooling and prove what callers
rely on. `dafny verify dfyconfig.toml` checks all of them.

**XML objects with a cached DOM.** An XML object owns children, text slots, attributes and a set of
namespaces, and may cache a DOM element. Every setter drops the cache on the object and walks up its
ancestors, stopping at the first one without a DOM; the marshaller reuses, moves or rebuilds what is
cached; the unmarshaller fills objects from a DOM.
`Names`, `MixedContent` and `Dom` hold names, text interleaved with elements, and the DOM.
`XmlTree` is the object class with its setters and cache releases, each proved to keep the tree and
the *coherence* of the cache: a cached element has the object's name, attributes and text, and its
element children are the cached elements of the object's children. `Declarations` and `Scoping` are
about namespace declarations, `Snapshots` records what a marshalling step may change, `Marshalling`
and `DocumentMarshalling` are the two entry points, `Contents` defines what an object and an element
say, `Unmarshalling` is the way back and `RoundTrip` puts both together. `Forests` closes the loop: a
forest of objects with every public operation as a method that keeps one invariant, or says exactly
when it does, which is how statements about every run are made here.

The comparison between trees is by *content*: expanded element and attribute names, the text of every
attribute value that is not empty, text joined between elements. Namespace declarations and schema location hints
are no content; declarations have theorems of their own.

**The curl input stream.** `CurlStream` keeps the pointers and counters of the source and adds three
histories: what was received, what was delivered, and what the current read has handed out.

**The storage service.** `MemoryStorage` gives each operation as a function of the store and the time
and proves the methods against it. `StorageRuns` is about whole runs by the clock, `StorageThreads`
about threads, locks and small steps, `ReplayDetection` about the replay cache on top.

**Smaller machines.** `ExceptionMessage` (parameter expansion with a memo), `LanguageMatch` (section
3.4 of RFC 4647), `ParserPools` (checkout and checkin over all exits), `UnknownElements` (content kept
as DOM or text). `Numbers` has decimal text.

## Where the code falls short of what one would expect

Each of these is proved, with the condition under which the expectation does hold. `Counterexamples`
has a short run for each of the first eight.

- `unmarshall` on an object that holds data but no DOM adds to the data and caches the element all the
  same. The cache is in step if and only if the data adds nothing (`Unmarshalling.Unmarshall`).
- `xsi:nil` is read by its first character. Any non-empty value but `true`, `false`, `1` and `0` comes back
  as one of these or not at all, while the element that has it is cached, so the round trip and the cache
  are right if and only if there is none (`RoundTrip.RebuildFromScratch`, `Forests.Forest.Build`,
  `Unmarshalling.UnwritableNil`).
- `XMLObjectChildrenList::erase` releases the DOM of the owner's ancestors but not of the owner. The
  owner's cache is in step afterwards if and only if there was none (`Forests.Forest.Erase`).
- `detach` gives the object its parent's document and releases the object's own. An element cached in a
  document given up on the way is left dangling, if and only if there is one (`Forests.Forest.Detach`;
  likewise where `marshall`, a binding `unmarshall`, a replaced child or a destructor release one).
- `marshall` under an element that another object caches puts that cache out of step, unless the
  element was there already or that object is an ancestor (`Forests.Forest.MarshallInto`).
- `setAttribute` with a prefix that is bound to another URI leaves the attribute without a declaration
  of its own (`Declarations.OwnNamesResolve`).
- A cached subtree is reused with its declarations as they are. Its prefixes keep their meaning if and
  only if every prefix it looks up above itself means the same in both places
  (`Scoping.LaidKeepsMeaning`, `Scoping.MovedKeepsMeaning`; one prefix at a time, `Scoping.PrefixKept`).
- Reading an unqualified attribute adds an empty default namespace to the object's set. Under another
  default namespace it is the one entry that does not resolve at the element it was read from
  (`Unmarshalling.BuiltResolves`, `Unmarshalling.BuiltResolvesExactly`). Read before the element's own
  default declaration it even keeps that out of the set, and the element written later lacks it; a declaration
  is kept for certain if no other name in the element uses its prefix otherwise (`Unmarshalling.DeclarationRead`,
  `Counterexamples.DefaultLost`).
- An `xsi:type` that ends right after its first colon is read and cannot be marshalled again
  (`Unmarshalling.TypeWritable`, `Unmarshalling.UnwritableType`).
- `matchLang` drops a single-character subtag at the end of the range before the first comparison, so
  it is the standard's lookup if and only if the range does not end in one after others
  (`LanguageMatch.StandardExactly`).
- A version echoed by `readString` says that the data is unchanged within one lifetime of the record,
  and not across a delete and a create (`StorageRuns.EchoMeansCurrent`, `StorageRuns.EchoAcrossLifetimes`).
- The clone of an unknown element prefers text over the element, so it is right if and only if text
  left from before is up to date (`UnknownElements.CloneExactly`, `UnknownElements.StaleClone`).

## Model

| member | source | states |
|---|---|---|
| Names.NamespaceSetInvariant | xmltooling/AbstractXMLObject.cpp:139-166 | Over any run of additions to a namespace set: no two entries share a prefix, every entry keeps its place and its first URI, the always-declare flag never falls and usage only rises |
| Names.AddedAllBinds | xmltooling/AbstractXMLObject.cpp:139-166 | After any run of additions exactly the prefixes bound before or mentioned in the run are bound |
| Names.AddedGrows | xmltooling/AbstractXMLObject.cpp:139-166 | One addition never shrinks or reorders the set: every entry keeps its place and only grows, at most one entry is added, last and for a prefix that was not there, and the prefix added is bound afterwards |
| Names.AddedExactly | xmltooling/AbstractXMLObject.cpp:139-166 | What becomes of each entry: one with the same prefix and URI ends up pinned if either was and as used as the stronger of the two, every other, one with the prefix bound to another URI included, stays as it is |
| XmlTree.XMLObject.AddNamespace | xmltooling/AbstractXMLObject.cpp:139-166 | The scan with overlay or insertion computes the functional namespace set update whose properties are in the rows above |
| MixedContent.WithText | xmltooling/AbstractComplexElement.cpp:87-111 | Setting text at a position appends the value to the text there and leaves the text at every other position alone, growing the slots as needed |
| MixedContent.SameGaps | xmltooling/AbstractComplexElement.cpp:87-111 | Setting an empty value changes no text around the children, so that skipping the cache release for it is right |
| XmlTree.XMLObject.ReleaseParentDOM | xmltooling/AbstractDOMCachingXMLObject.cpp:96-107 | The upward walk that stops at the first ancestor without a DOM brings back coherence of the whole tree when only the parent was out of step, and touches ancestors only |
| XmlTree.XMLObject.ReleaseThisAndParentDOM | xmltooling/AbstractXMLObject.cpp:48-52 | Afterwards the object holds no DOM nor, in a coherent tree, does any ancestor at any height, nothing off that path lost one, and nothing came to be out of step |
| XmlTree.XMLObject.UncachedAbove | xmltooling/AbstractDOMCachingXMLObject.cpp:96-107 | Why stopping early is complete: in a coherent tree an object without a DOM has no ancestor with one |
| XmlTree.XMLObject.UncachedAt | xmltooling/AbstractDOMCachingXMLObject.cpp:96-107 | The same for one given ancestor, by induction on the distance |
| XmlTree.XMLObject.SetTextContent | xmltooling/AbstractComplexElement.cpp:87-111 | Refused exactly beyond the last child; otherwise the merged slots, coherence kept (but for objects out of step before), and in a coherent tree no DOM left here or above if the value is not empty |
| XmlTree.XMLObject.SetNil | xmltooling/AbstractXMLObject.cpp:188-194 | Sets the value; in a coherent tree a change leaves no DOM here or above, an equal value leaves every DOM alone |
| XmlTree.NilSpelled | xmltooling/io/AbstractXMLObjectMarshaller.cpp:222-238 | The four values of xsi:nil are written with the lexical forms section 3.2.2.1 of XML Schema Part 2 gives a boolean, and of these texts each is read as its own value |
| XmlTree.XMLObject.SetAttribute | xmltooling/AbstractAttributeExtensibleXMLObject.cpp:140-165 | The attribute map, the ID pointer (never dangling) and the namespace set after insertion, replacement or removal, with coherence kept and, in a coherent tree, no DOM left here or above if anything changed |
| XmlTree.LastValueCounts | xmltooling/AbstractAttributeExtensibleXMLObject.cpp:140-165 | Setting a new attribute and setting it again leaves the last value with the first prefix, an empty last value leaves the attributes as they were, others are untouched and the ID pointer never dangles |
| XmlTree.IdFollows | xmltooling/AbstractAttributeExtensibleXMLObject.cpp:140-165 | Over any run of setAttribute the ID pointer is at the attribute that was last given an ID value, unless it was removed since, and otherwise nowhere |
| XmlTree.XMLObject.StoreAttribute | xmltooling/AbstractAttributeExtensibleXMLObject.cpp:140-165 | Insertion, replacement and removal keep the object in order: unique prefixes, the element's own first, every attribute with a value and a bound prefix, no dangling ID pointer |
| XmlTree.XMLObject.PushBack | xmltooling/util/XMLObjectChildrenList.h:523-528 | Refused exactly for a child that has a parent; otherwise the child is last, both trees are one tree, it is as coherent as the two were, and in a coherent tree no DOM is left at the new parent or above |
| XmlTree.XMLObject.PushedTree | xmltooling/util/XMLObjectChildrenList.h:523-528 | A root put at any place among the children of another tree's object makes one well-formed tree |
| XmlTree.XMLObject.AssignSlot | xmltooling/AbstractXMLObject.cpp:324-345 | Filling, clearing or replacing a child slot: the children that result, the tree without the old child's subtree and with the new one, coherence, and no DOM left here or above unless nothing changed |
| XmlTree.XMLObject.RemoveChild | xmltooling/AbstractComplexElement.cpp:77-80 | The removed child's subtree and what is left are trees of their own; only the owner can be out of step, and it is in step exactly when it held no DOM |
| XmlTree.XMLObject.Erase | xmltooling/util/XMLObjectChildrenList.h:530-577 | The walk starts at the owner's parent: no ancestor keeps a DOM, and the owner's own survives and is in step afterwards if and only if there was none; the child is destroyed with every document owned below it |
| XmlTree.XMLObject.ReleaseChildrenDOM | xmltooling/AbstractDOMCachingXMLObject.cpp:109-132 | Everything strictly below loses its DOM and nothing else does |
| XmlTree.XMLObject.BelowChild | xmltooling/AbstractDOMCachingXMLObject.cpp:109-132 | Whatever lies strictly below an object lies in the subtree of one of its children, so the recursion reaches everything |
| XmlTree.XMLObject.SetDocument | xmltooling/AbstractDOMCachingXMLObject.cpp:76-83 | The document owned before is released exactly when another takes its place |
| XmlTree.XMLObject.Destroy | xmltooling/AbstractDOMCachingXMLObject.cpp:51-55 | Destroying a subtree releases every document owned in it, each once (a second release would violate a precondition) |
| XmlTree.XMLObject.TakeDocument | xmltooling/AbstractDOMCachingXMLObject.cpp:178-197 | The parent's document changes owner without being released, and no document gets two owners |
| XmlTree.XMLObject.LeaveParent | xmltooling/AbstractXMLObject.cpp:116-127 | The detached subtree and the remainder are both well-formed trees and the subtree stays coherent |
| XmlTree.XMLObject.Detach | xmltooling/AbstractDOMCachingXMLObject.cpp:178-197 | Succeeds exactly for a root or a child of a root; the object keeps its subtree, takes the parent's document in place of its own, which is then released, and every document left in the destroyed remainder is released |
| Forests.Forest.ReleaseAll | xmltooling/AbstractXMLObject.cpp:54-58 | On any object: nothing at or below it holds a DOM afterwards; the forest invariant holds if and only if it has no parent or its parent has no DOM, since the parent is not told |
| Forests.Forest.SetTextContent | xmltooling/AbstractComplexElement.cpp:87-111 | Over the whole forest the invariant (tree, coherent cache, one owner per document, released exactly when unowned, every object in order) is kept, and no cached element comes to belong to a released document |
| Forests.Forest.SetNil | xmltooling/AbstractXMLObject.cpp:188-194 | Keeps the forest invariant; a change leaves no DOM here or above |
| Forests.Forest.SetAttribute | xmltooling/AbstractAttributeExtensibleXMLObject.cpp:140-165 | Keeps the forest invariant; a change leaves no DOM here or above |
| Forests.Forest.Append | xmltooling/util/XMLObjectChildrenList.h:523-528 | Keeps the forest invariant; refused exactly for a child that has a parent |
| Forests.Forest.AssignChild | xmltooling/AbstractXMLObject.cpp:324-345 | Keeps the forest invariant; refused exactly for a child that has a parent; the child replaced is destroyed and every document owned below it released; cached elements stay in live documents if and only if nobody left uses one of those |
| Forests.Forest.Erase | xmltooling/util/XMLObjectChildrenList.h:530-577 | The child's tree is destroyed and every document owned in it released; the forest invariant holds afterwards if and only if the owner held no DOM; cached elements stay in live documents if and only if nobody left uses one of those released |
| Forests.Forest.New | xmltooling/AbstractXMLObject.cpp:90-100 | A new object joins the forest and keeps the invariant |
| Forests.Forest.Marshall | xmltooling/io/AbstractXMLObjectMarshaller.cpp:67-131 | Keeps the forest invariant; the result says exactly the object's content before the call, every new element carries its object's prefix and names, the DOM is reused exactly where the document agrees, no ancestor keeps a DOM, prefixes are laid out as `Laid` says for any mixture of cached and uncached objects, and cached elements stay in live documents if and only if nobody else caches one of the document replaced |
| Forests.Forest.MarshallInto | xmltooling/io/AbstractXMLObjectMarshaller.cpp:133-189 | The forest invariant holds afterwards if and only if nobody but an ancestor of the object caches the target or the object's element was there already; either way the result hangs under the target, says exactly the object's content, new elements carry their objects' prefixes and names, and prefixes are laid out as `Laid` says |
| Forests.Forest.Build | xmltooling/XMLObjectBuilder.cpp:57-70 | Fails exactly on an unsupported node anywhere below; otherwise a tree of new objects caching the given elements, with their names, joins the forest, owning the document if bound; the forest invariant holds afterwards, and the content is what the DOM says, if and only if every xsi:nil in it is one of the values the library writes |
| Forests.Forest.Unmarshall | xmltooling/io/AbstractXMLObjectUnmarshaller.cpp:51-78 | On any object: refused exactly on a DOM, a parent, another name or an unsupported node below; unless refused, the forest invariant holds afterwards if and only if every xsi:nil read below is one the library writes and, should it succeed, what the object held before adds nothing; binding leaves cached elements in live documents if and only if nobody else caches one of the document given up |
| Forests.Forest.Detach | xmltooling/AbstractDOMCachingXMLObject.cpp:178-197 | Keeps the forest invariant; the objects that are gone are those of the old root's tree outside the detached subtree, and their documents are released; cached elements stay in live documents if and only if nobody left caches one of a document given up on the way, the object's own included |
| Forests.Forest.Destroy | xmltooling/AbstractDOMCachingXMLObject.cpp:51-55 | Keeps the forest invariant, so that once all objects are destroyed every document ever bound has been released, each exactly once; cached elements stay in live documents if and only if nobody left caches one of the documents given back |
| Contents.CacheSays | xmltooling/io/AbstractXMLObjectMarshaller.cpp:83-130 | Cache coherence all the way down: in a coherent tree a cached element says exactly what a from-scratch marshalling of the object's current state would, every attribute with its text |
| Contents.SaysOne | xmltooling/io/AbstractXMLObjectMarshaller.cpp:83-130 | An element says one content only, so the reusing and the rebuilding marshaller agree |
| Contents.CachedBelow | xmltooling/AbstractDOMCachingXMLObject.cpp:96-107 | Everything below a cached object is cached, in elements of one document |
| Dom.LookupNamespaceURI | xmltooling/io/AbstractXMLObjectMarshaller.cpp:323-351 | The recursive lookup finds what the prefix means by sections 6.1 and 6.2 of Namespaces in XML 1.0 over the attributes along the ancestors |
| Dom.MeaningExactly | xmltooling/io/AbstractXMLObjectMarshaller.cpp:323-351 | That is what the first scope that declares the prefix says; undeclared, the default namespace is the empty one and any other prefix means nothing |
| Declarations.AddDeclaration | xmltooling/io/AbstractXMLObjectMarshaller.cpp:291-321 | A declaration is written exactly when it is pinned or means something else above, never for xml |
| Declarations.MarshallNamespaces | xmltooling/io/AbstractXMLObjectMarshaller.cpp:354-359 | The loop over the namespace set writes the declarations called for and touches no other attribute |
| Declarations.DeclarationsExact | xmltooling/io/AbstractXMLObjectMarshaller.cpp:291-321 | For every entry of a set without clashing prefixes: its xmlns attribute is there if and only if it is called for, with its own URI |
| Declarations.DeclarationsOnly | xmltooling/io/AbstractXMLObjectMarshaller.cpp:354-359 | Writing declarations leaves every other attribute as it was |
| Declarations.DeclarationsResolve | xmltooling/io/AbstractXMLObjectMarshaller.cpp:291-359 | Leaving out what is in scope loses nothing: every entry means at the element what it would if the whole set were declared there, the empty default namespace included |
| Declarations.OwnNamesResolve | xmltooling/AbstractXMLObject.cpp:139-166 | Where an object's set resolves, its own prefix means its own URI, and the prefixes of its attributes, of its type, and of xsi:nil and xsi:type mean theirs if and only if the first entry with the prefix has that URI |
| Declarations.MarshallHead | xmltooling/io/AbstractXMLObjectMarshaller.cpp:191-255 | The fresh element is in step with the object and carries its prefix; each attribute has the prefix the object has for it, or xsi; and the declarations are just right: every entry of the namespace set (with xsi if nil or a type is written) means its own URI at the element, the pinned ones are declared there, and nothing is that is not called for |
| Declarations.HeadSettled | xmltooling/io/AbstractXMLObjectMarshaller.cpp:291-359 | The declarations of a fresh element are just right for the object's namespace set: all entries resolve, pinned ones but xml's own are declared here, and every declaration is of an entry that is pinned or not in scope above |
| Declarations.HeadClad | xmltooling/io/AbstractXMLObjectMarshaller.cpp:191-255 | A fresh element has its object's name, prefix included, and each attribute but the declarations the prefix the object has for it, or xsi, which the set then binds |
| Declarations.WithXsiExactly | xmltooling/io/AbstractXMLObjectMarshaller.cpp:222-242 | Writing xsi:nil or a type leaves an entry for xsi, visibly used if it is for the schema-instance namespace; without either nothing is added, and in no case is anything pinned |
| Declarations.MarshallAttributes | xmltooling/AbstractAttributeExtensibleXMLObject.cpp:204-216 | The extension attributes go on as they are, over what is there |
| Scoping.EveryPrefixResolves | xmltooling/io/AbstractXMLObjectMarshaller.cpp:291-359 | In a subtree whose prefixes are in order, at every object's element every entry of its namespace set resolves to its own URI along the real parent pointers |
| Scoping.MovedKeepsMeaning | xmltooling/io/AbstractXMLObjectMarshaller.cpp:149-158 | A cached subtree that only comes to hang elsewhere keeps the meaning of all its prefixes if and only if every prefix it looks up above itself means the same in both places |
| Scoping.NewElementsResolve | xmltooling/io/AbstractXMLObjectMarshaller.cpp:291-359 | For any mixture of cached and uncached objects: at every new element the declarations are just right for its object's namespace set, along the real parent pointers |
| Scoping.NamesMean | xmltooling/io/AbstractXMLObjectMarshaller.cpp:199-255 | Where an element carries its object's names and its declarations are just right, the element's own prefix means its own URI along the real parent pointers, and each attribute's prefix means the attribute's if and only if the object's set has it for that |
| Scoping.CladAfter | xmltooling/io/AbstractXMLObjectMarshaller.cpp:191-255 | After marshalling, every element an object did not have before carries its object's names |
| Scoping.LaidKeepsMeaning | xmltooling/io/AbstractXMLObjectMarshaller.cpp:83-130 | For any mixture, if each reused subtree had its prefixes in order where it was, the whole marshalled subtree has if and only if each of them finds the prefixes it looks up above itself unchanged in its new place |
| Scoping.PrefixKept | xmltooling/io/AbstractXMLObjectMarshaller.cpp:83-189 | For each prefix at each element of a reused subtree by itself, whatever did or did not resolve there: it means what it meant before if and only if the subtree declares it on the way up or it means above the subtree what it meant there |
| Scoping.NewOrReused | xmltooling/io/AbstractXMLObjectMarshaller.cpp:83-189 | After marshalling any mixture every object has a new element at which its whole set resolves, or lies in a subtree that was reused as it was |
| Forests.MarshalledPrefixes | xmltooling/io/AbstractXMLObjectMarshaller.cpp:83-189 | For a caller of either marshall on a forest: at every new element the whole set resolves, the element's own prefix means its own URI, and each attribute's does if the set has it for that; and the whole subtree is in order if and only if each reused part finds its lookups above unchanged |
| Marshalling.MarshallUnder | xmltooling/io/AbstractXMLObjectMarshaller.cpp:133-189 | Reuse, move or rebuild under an element, for any mixture of cached and uncached objects: every object that kept or got an element is in step with it, the object's own element is reused exactly if it is of that document, reused subtrees come along as they are and at every new element all prefixes resolve (`Laid`) |
| Marshalling.Rebuild | xmltooling/io/AbstractXMLObjectMarshaller.cpp:168-189 | Building the element anew: a new element, hung at the end of the target, in step with the object, carrying its names, all its prefixes resolved, whatever mixture of cached and uncached objects is below |
| Marshalling.MarshallAnew | xmltooling/io/AbstractXMLObjectMarshaller.cpp:160-189 | An element of another document is dropped with everything below before the new one is built, and the parent ends without a DOM |
| Marshalling.MarshallContent | xmltooling/io/AbstractXMLObjectMarshaller.cpp:361-388 | Text and children go out interleaved by position: at the end the element children are the children's cached elements in order and the texts between them are the text slots |
| Marshalling.DropSubtree | xmltooling/io/AbstractXMLObjectMarshaller.cpp:160-167 | A DOM of another document goes with everything below it, and the rest stays coherent |
| Marshalling.MoveUnder | xmltooling/io/AbstractXMLObjectMarshaller.cpp:149-158 | Appending a cached element elsewhere takes it out of its old place; only the object's parent can be out of step after that |
| DocumentMarshalling.MarshallInDocument | xmltooling/io/AbstractXMLObjectMarshaller.cpp:67-131 | marshall over a document: the content is that of the object, the element becomes the document element, is the cached one exactly if the document agrees, other subtrees keep their DOM, ancestors keep none, ownership stays unique, and for any mixture reused subtrees come along as they are while at every new element all prefixes resolve, a reused element at the top of the document included |
| DocumentMarshalling.PlaceAtRoot | xmltooling/io/AbstractXMLObjectMarshaller.cpp:58-65 | Making a cached element the document element takes it out of its old place; only the object's parent can be out of step after that |
| DocumentMarshalling.MarshallAfresh | xmltooling/io/AbstractXMLObjectMarshaller.cpp:98-131 | Without a usable DOM: a new document element in step with everything below; without a document one that the object owns, and the one owned before is released |
| DocumentMarshalling.BindDocument | xmltooling/AbstractDOMCachingXMLObject.cpp:62-74 | Rebinding keeps one owner per document and releases the one given up |
| DocumentMarshalling.MarshallInElement | xmltooling/io/AbstractXMLObjectMarshaller.cpp:133-189 | marshall under any element that is not part of the object's own: everything is in step afterwards if and only if nobody but an ancestor caches the target or the element was there already; content, ownership and prefixes as above |
| Unmarshalling.UnmarshallAttributes | xmltooling/io/AbstractXMLObjectUnmarshaller.cpp:80-165 | In any order of the attributes, on an object that may have some: exactly those that are no declarations and not of the four schema-instance names take the place of the object's, an empty one removes, the first prefix stays, xsi:nil is parsed, the ID pointer is at one of the ID attributes if there are any; every declaration but xml's own leaves an entry for its prefix, pinned if it is for the declared URI, every qualified name one that is visibly used, and nothing else adds or pins an entry |
| Unmarshalling.UnmarshallAttribute | xmltooling/io/AbstractXMLObjectUnmarshaller.cpp:80-165 | One attribute of each kind: the attribute map, nil, ID pointer and the entry of the namespace set it leaves, pinned for a declaration, visibly used for a qualified name |
| Unmarshalling.HeedsMore | xmltooling/io/AbstractXMLObjectUnmarshaller.cpp:80-165 | An attribute read earlier stays heeded whatever is read later, so that after the last one all are |
| Unmarshalling.DeclarationRead | xmltooling/io/AbstractXMLObjectUnmarshaller.cpp:112-122 | A built object has, for every declaration of its element but xml's own, an entry for that prefix with the declared URI, pinned, as long as no other name in the element uses the prefix otherwise |
| Unmarshalling.ElementRead | xmltooling/io/AbstractXMLObjectUnmarshaller.cpp:167-219 | Every element of the tree read has an object built from it |
| Unmarshalling.SupportedExactly | xmltooling/io/AbstractXMLObjectUnmarshaller.cpp:167-219 | A tree is built exactly if no element at or below its top has a child of an unsupported type |
| Unmarshalling.AttributesRoundTrip | xmltooling/io/AbstractXMLObjectUnmarshaller.cpp:80-165 | Marshalling the attributes read into a new object gives the same expanded names and non-empty values if and only if xsi:nil is absent, empty, true, false, 1 or 0 |
| Unmarshalling.OverlayExactly | xmltooling/io/AbstractXMLObjectUnmarshaller.cpp:80-165 | On any object the attributes, nil and type say what those of the element say if and only if each attribute it had is overwritten or agrees, xsi:nil is one the library writes or, without one, was unset, and the type agrees; an attribute of the same name hides nil and the type |
| Unmarshalling.TypeRoundTrip | xmltooling/util/XMLHelper.cpp:58-80 | An xsi:type is read exactly if there is a non-empty one, split at its first colon if something precedes that, with the URI its prefix stands for, and is written back as the same text |
| Unmarshalling.TypeWritable | xmltooling/io/AbstractXMLObjectMarshaller.cpp:257-265 | The type read can be marshalled if and only if the attribute does not end right after its first colon, unless that colon comes first |
| Unmarshalling.UnwritableType | xmltooling/util/XMLHelper.cpp:58-80 | The smallest type that is read and cannot be marshalled: p: |
| Unmarshalling.NilWritable | xmltooling/AbstractXMLObject.cpp:65-88 | What xsi:nil is read as is written back as the same text if and only if it is absent, empty, true, false, 1 or 0 |
| Unmarshalling.UnwritableNil | xmltooling/AbstractXMLObject.cpp:65-88 | Two values that are not: yes is lost and tomato comes back as true |
| Unmarshalling.UnmarshallContent | xmltooling/io/AbstractXMLObjectUnmarshaller.cpp:167-219 | Fails exactly on an unsupported node; otherwise every child element is a built child, in order after the children there were, and the text around them is added to the slot its position counts |
| Unmarshalling.ElementStep | xmltooling/io/AbstractXMLObjectUnmarshaller.cpp:167-219 | A child element starts a new text position and leaves every slot as it is |
| Unmarshalling.TextStep | xmltooling/io/AbstractXMLObjectUnmarshaller.cpp:167-219 | A text node is added to what is at the current text position and to nothing else |
| Unmarshalling.AddChild | xmltooling/impl/AnyElement.cpp:84-87 | processChildElement: the built child goes last and the object under construction stays in step with the nodes read so far, but for an xsi:nil read otherwise than it is written |
| Unmarshalling.Unmarshall | xmltooling/io/AbstractXMLObjectUnmarshaller.cpp:51-78 | Fails exactly if the object holds a DOM or has a parent, the name differs or a node below is unsupported, refused without a trace in the first three cases; otherwise the element is cached. All is in step afterwards if and only if every xsi:nil read below, up to the node it stopped at, is one the library writes and, if it succeeded, what the object was before adds nothing: no children, no text at the element's positions, attributes, nil and type overwritten or agreeing |
| Unmarshalling.BuildFromElement | xmltooling/XMLObjectBuilder.cpp:57-70 | Builds exactly from supported trees; all objects are new, cached over the elements given, one for each in the same places, in step but for an xsi:nil read otherwise than it is written, with the namespace entries the attributes call for, and own nothing |
| Unmarshalling.ReadUpTo | xmltooling/io/AbstractXMLObjectUnmarshaller.cpp:167-219 | What is read before an unsupported node stops it: exactly the trees of the child elements before that node, and all of them if there is none |
| Unmarshalling.InStepRead | xmltooling/AbstractXMLObject.cpp:65-88 | A cache in step means that no object below misread the xsi:nil of its element |
| Unmarshalling.BuiltSays | xmltooling/io/AbstractXMLObjectUnmarshaller.cpp:51-219 | What an object built from an element says is exactly what the element says if and only if every xsi:nil in its tree is one the library writes |
| Unmarshalling.BuiltResolves | xmltooling/io/AbstractXMLObjectUnmarshaller.cpp:80-165 | Where the names of the source element resolve, every entry of the object built from it means its own URI there, but for the empty default namespace of an unqualified attribute, which does if and only if no other default is in force |
| Unmarshalling.BuiltResolvesExactly | xmltooling/AbstractAttributeExtensibleXMLObject.cpp:140-165 | So the object's whole set resolves at its source element if and only if the default namespace is empty there or no entry is the empty default namespace |
| RoundTrip.RebuildFromScratch | xmltooling/io/AbstractXMLObjectUnmarshaller.cpp:51-219 | Unmarshal, drop every DOM, marshal again: a tree of new elements, one for each old one, with the same expanded names and prefixes, the same non-empty attributes and the same mixed content if and only if every xsi:nil in the old one is absent, empty, true, false, 1 or 0; in it every prefix of every object and element resolves to its own URI, and whatever an old element declared its new one declares again, as long as no name in the old one clashes with it |
| RoundTrip.DeclaredAgain | xmltooling/io/AbstractXMLObjectMarshaller.cpp:291-321 | A declaration that was read as a pinned entry is on the element that is written later, whatever the namespace set gained in between |
| RoundTrip.Sources | xmltooling/XMLObjectBuilder.cpp:57-70 | The objects of a built tree and the elements of the tree it was built from correspond one to one, own prefixes included |
| Counterexamples.UnmarshallOver | xmltooling/io/AbstractXMLObjectUnmarshaller.cpp:51-78 | A run: an attribute set before unmarshall is not in the element, which is cached all the same |
| Counterexamples.NilLost | xmltooling/AbstractXMLObject.cpp:65-88 | A run: xsi:nil=yes is read as unset and the element that has it is cached |
| Counterexamples.ErasedChild | xmltooling/util/XMLObjectChildrenList.h:530-577 | A run: the cached element of a marshalled root keeps the child that was erased |
| Counterexamples.DanglingCache | xmltooling/AbstractDOMCachingXMLObject.cpp:178-197 | A run: a child that made a document of its own before it is detached is left caching an element of a released document |
| Counterexamples.TargetInUse | xmltooling/io/AbstractXMLObjectMarshaller.cpp:133-189 | A run: marshalling under an element that another object caches puts that cache out of step |
| Counterexamples.PrefixTaken | xmltooling/AbstractAttributeExtensibleXMLObject.cpp:140-165 | A run: an attribute whose prefix was taken does not get its own URI |
| Counterexamples.PrefixLost | xmltooling/io/AbstractXMLObjectMarshaller.cpp:67-131 | A run: built from a document in which the root declares its prefix, detached and marshalled by itself, an object's prefix is declared nowhere |
| Counterexamples.DefaultLost | xmltooling/io/AbstractXMLObjectUnmarshaller.cpp:112-162 | A run: a default declaration read after an attribute without a prefix is not kept, and no later state of the set has it |
| CurlStream.InputStream.WriteCallback | xmltooling/util/CurlURLInputStream.cpp:443-487 | Whatever the chunk and the state of the request: all of it is consumed, received bytes are delivered bytes followed by buffered bytes in order, and the tail is at the buffer start again |
| CurlStream.InputStream.TakeDirect | xmltooling/util/CurlURLInputStream.cpp:443-457 | Bytes handed through go after what the target holds already and nowhere else |
| CurlStream.InputStream.Rebuffer | xmltooling/util/CurlURLInputStream.cpp:459-478 | Growing the buffer keeps what is in it, once, and appends the rest |
| CurlStream.InputStream.ReadMore | xmltooling/util/CurlURLInputStream.cpp:489-575 | Any number of callbacks with chunks of any size keep the protocol invariant and add their bytes in order |
| CurlStream.InputStream.TakeBuffered | xmltooling/util/CurlURLInputStream.cpp:592-606 | The reader gets the smaller of what it wants and what is buffered, in order, and a drained buffer starts over |
| CurlStream.InputStream.ReadBytes | xmltooling/util/CurlURLInputStream.cpp:577-620 | Delivered plus still wanted is the request, at most maxToRead bytes of the target are written and they are exactly the next bytes of the stream; fewer than asked for only with nothing buffered and the transfer over, a status of 300 or more, or something read and curl with nothing more at once; curl is asked only if what is buffered does not do, and again only if it said so or nothing has come |
| CurlStream.InputStream.Init | xmltooling/util/CurlURLInputStream.cpp:387-426 | Reading stops at the first call that brought something or ended the transfer; a status of 300 or more replaces what came by the status document |
| CurlStream.InputStream.SetStatus | xmltooling/util/CurlURLInputStream.cpp:405-426 | The status document takes the place of the content exactly for a known status of 300 or more |
| CurlStream.StatusSpelled | xmltooling/util/CurlURLInputStream.cpp:405-417 | The bytes of the status document are the codes of its text's characters, with the status in decimal in between |
| CurlStream.ReadStatus | xmltooling/util/CurlURLInputStream.cpp:577-620 | Reads of any sizes together hand out a prefix of the status document, all of it once they ask for enough, and nothing after it |
| CurlStream.InOrder | xmltooling/util/CurlURLInputStream.cpp:443-487 | Order is kept because bytes go straight through only while nothing is buffered |
| MemoryStorage.MemoryStore.CreateString | xmltooling/impl/MemoryStorageService.cpp:219-238 | Refused exactly while a live record has the key; an expired one is replaced; the new state and the answer are those of the sequential service |
| MemoryStorage.MemoryStore.ReadString | xmltooling/impl/MemoryStorageService.cpp:240-257 | Answers 0 without a live record, the version alone if the caller has it, else version and data; the expiration of a live record always; the new state and the answer are those of the sequential service |
| MemoryStorage.MemoryStore.UpdateString | xmltooling/impl/MemoryStorageService.cpp:259-283 | 0 without a live record, -1 on another version, else data, version and expiration as asked for; the new state and the answer are those of the sequential service |
| MemoryStorage.MemoryStore.DeleteString | xmltooling/impl/MemoryStorageService.cpp:285-300 | The record goes, expired or not, and the answer says whether it was there; the new state and the answer are those of the sequential service |
| MemoryStorage.MemoryStore.ExtendContext | xmltooling/impl/MemoryStorageService.cpp:302-315 | Exactly the live records of the context get the new expiration; the new state and the answer are those of the sequential service |
| MemoryStorage.MemoryStore.ReapRecords | xmltooling/impl/MemoryStorageService.cpp:204-217 | Exactly the expired records of the context go, and they are counted; the new state and the answer are those of the sequential service |
| MemoryStorage.MemoryStore.CleanupAll | xmltooling/impl/MemoryStorageService.cpp:171-185 | Exactly the expired records of all contexts go; the new state and the answer are those of the sequential service |
| StorageRuns.ReapingIsInvisible | xmltooling/impl/MemoryStorageService.cpp:200-283 | Under a clock that never goes back, reaping and cleanup passes put in anywhere in any run, by that clock or by an earlier time read before the lock was had, change no answer of the rest of the run, the return value of deleteString apart |
| StorageRuns.LiveAfter | xmltooling/impl/MemoryStorageService.cpp:219-315 | What every operation does to a record, in terms of live records alone: expired ones have no influence |
| StorageRuns.SameStep | xmltooling/impl/MemoryStorageService.cpp:219-315 | Two stores with the same live records answer every operation alike and keep the same live records |
| StorageRuns.NoRevival | xmltooling/impl/MemoryStorageService.cpp:259-315 | In one step an expired record stays as it is, goes, or makes room for a newly created one with version 1 |
| StorageRuns.DeadUntilCreated | xmltooling/impl/MemoryStorageService.cpp:219-315 | Over any run by the clock, what has expired or was never there stays dead until it is successfully created |
| StorageRuns.ReadsBack | xmltooling/impl/MemoryStorageService.cpp:219-300 | What was created or written is read back with the version the writer was told and its expiration, until that; what was deleted is not found |
| StorageRuns.ReachableVersioned | xmltooling/impl/MemoryStorageService.cpp:88-93 | In every reachable store versions are at least 1 |
| StorageRuns.VersionCountsWrites | xmltooling/impl/MemoryStorageService.cpp:259-283 | Within a record's lifetime its version grows by exactly one for each write of data and by nothing else, and without a write the data stays |
| StorageRuns.EchoMeansCurrent | xmltooling/impl/MemoryStorageService.cpp:240-257 | Within one lifetime a read that only echoes the caller's version means that the data is what was stored at that version |
| StorageRuns.EchoAcrossLifetimes | xmltooling/impl/MemoryStorageService.cpp:240-257 | Across a delete and a create the echo can hide other data: versions start again at 1 |
| StorageRuns.ConditionalUpdate | xmltooling/impl/MemoryStorageService.cpp:259-283 | An update naming a version succeeds if and only if the live record has it, gives the next one for new data, and otherwise changes nothing |
| StorageRuns.UpdateExactly | xmltooling/impl/MemoryStorageService.cpp:259-283 | Every update, from the live record alone: 0 if and only if there is none, -1 if and only if there is one and a positive version names another, otherwise the version it then has, one more if there was data; the record is then exactly as asked for, and all others are as they were |
| StorageRuns.DeleteExactly | xmltooling/impl/MemoryStorageService.cpp:285-300 | A delete says whether there was a record, expired or not, leaves none, and says no the second time |
| StorageRuns.ReapsExactly | xmltooling/impl/MemoryStorageService.cpp:171-217 | A reaping pass takes away exactly the expired records, of its context or of all, and leaves the others as they are |
| StorageThreads.MicroRight | xmltooling/impl/MemoryStorageService.cpp:219-315 | Every operation taken in small steps arrives at the store and the answer of the operation taken at once, and it terminates |
| StorageThreads.StepKeepsInv | xmltooling/impl/MemoryStorageService.cpp:104-117 | Every step of any thread keeps the lock discipline, the tie between the store and the history, and the tie between the history and the calls made |
| StorageThreads.ReferenceValid | xmltooling/impl/MemoryStorageService.cpp:104-117 | The context reference held, and every record about to be touched, exist until the unlock |
| StorageThreads.WritesNeedTheLock | xmltooling/impl/MemoryStorageService.cpp:104-117 | The map changes only in a step of the thread that holds the write lock while nobody reads |
| StorageThreads.Linearizable | xmltooling/impl/MemoryStorageService.cpp:219-315 | Every interleaving is a sequential run of exactly the calls made: each entry is what one call asked for, no two are for the same call, each call that returned has its own, from a time between its call and its return, with the answer its caller heard, after those of all calls that had returned before it; the run is in the order of the clock (a cleanup pass may go by the time it read before it got the lock), leaves no lock held, and leaves the store the run leaves |
| StorageThreads.InvSequential | xmltooling/impl/MemoryStorageService.cpp:219-315 | The same in every reachable state, with operations still at work |
| StorageThreads.RunAsks | xmltooling/impl/MemoryStorageService.cpp:219-315 | The calls the history is attributed to are exactly the calls of the run, in order, each with what it asked for |
| StorageThreads.UpgradeLosesNothing | xmltooling/impl/MemoryStorageService.cpp:104-112 | The read-to-write upgrade in any run: when the thread has the context it holds exactly what all operations so far left there, whatever others did between the two locks, and every other context is untouched |
| StorageThreads.HistoryMonotone | xmltooling/impl/MemoryStorageService.cpp:200-283 | The sequential run has a clock that never goes back for anything callers ask, so what holds of such runs holds of the threads |
| StorageThreads.StepAdvances | xmltooling/impl/MemoryStorageService.cpp:104-117 | Every step a thread takes brings its call closer to its return by a measure that falls, and leaves every other thread where it is |
| StorageThreads.NoDeadlock | xmltooling/impl/MemoryStorageService.cpp:104-117 | As long as a call is on its way some thread can take a step, the read-to-write upgrade included |
| ReplayDetection.ReplayCache.Check | xmltooling/util/ReplayCache.cpp:49-80 | The direct and the hashed path: fresh exactly if the label fits and no record is live under the value, or under its hash if it is too long; the record is then there with its expiration |
| ReplayDetection.RemembersAccepted | xmltooling/util/ReplayCache.cpp:49-80 | After any run of checks and reaping passes the store holds a live record for exactly the accepted values still good |
| ReplayDetection.FreshExactly | xmltooling/util/ReplayCache.cpp:49-80 | By value over whole runs: a check says fresh if and only if its context label fits and no check accepted earlier in that context is still good and was of the same value, or of a longer one whose hash is that value; likewise by the hash for a value that is too long itself |
| ReplayDetection.ReplaySafety | xmltooling/util/ReplayCache.cpp:49-80 | Once a check succeeded, every later check of the same value and context fails until it expires |
| ExceptionMessage.XMLToolingException.GetMessage | xmltooling/exceptions.cpp:151-182 | In every reachable state the message is the one-pass expansion of the current message and parameters (the bare message without parameters), memo or not, and the scan ends |
| ExceptionMessage.XMLToolingException.Scan | xmltooling/exceptions.cpp:161-178 | One turn of the scanner moves on and keeps what was put out plus what is to come equal to the expansion |
| ExceptionMessage.XMLToolingException.SetMessage | xmltooling/exceptions.cpp:101-108 | The message changes and no stale memo survives |
| ExceptionMessage.XMLToolingException.AddProperties | xmltooling/exceptions.cpp:110-122 | Positional parameters are numbered on from the number there are, and no stale memo survives |
| ExceptionMessage.XMLToolingException.AddNamedProperties | xmltooling/exceptions.cpp:124-132 | Named parameters replace earlier ones in order, and no stale memo survives |
| ExceptionMessage.Reference | xmltooling/exceptions.cpp:161-178 | A reference anywhere: the text before stays, the value goes in and is not looked at again, the rest is expanded by itself; an unknown name loses only its dollar sign |
| ExceptionMessage.PositionalReference | xmltooling/exceptions.cpp:110-122 | The k-th positional parameter of a new exception answers to $k |
| ExceptionMessage.Corners | xmltooling/exceptions.cpp:161-178 | A dollar sign before another character keeps that character; one at the end is the parameter with the empty name or nothing |
| ExceptionMessage.NumberedAt | xmltooling/exceptions.cpp:110-122 | Every positional value is found under its own number, however many follow |
| Names.LastPairCounts | xmltooling/exceptions.cpp:124-132 | Of several named parameters with one name the last one counts, also for the mappings of a catalog |
| Names.NotPaired | xmltooling/exceptions.cpp:124-132 | A name that is in no pair keeps what it had |
| Numbers.DecimalReads | xmltooling/exceptions.cpp:110-122 | The number of a positional parameter is its decimal text: read back it is the number, without leading zeros |
| LanguageMatch.MatchLang | xmltooling/io/HTTPRequest.cpp:169-193 | The nested loops end and answer whether some of the first subtags of the range, the last of them of more than one character, joined by hyphens are the tag, character by character but for the case of ASCII letters |
| LanguageMatch.LookedExactly | xmltooling/io/HTTPRequest.cpp:169-193 | The fallback with its trimming comes down to the prefixes of the range that end in a subtag of more than one character |
| LanguageMatch.SameExactly | xmltooling/io/HTTPRequest.cpp:190 | Two texts of equal length match if and only if at each place the characters are equal or the two cases of one ASCII letter |
| LanguageMatch.CaseMakesNoDifference | xmltooling/io/HTTPRequest.cpp:169-193 | The answer is the same for any two tags and any two ranges that differ only in the case of ASCII letters |
| LanguageMatch.Instances | xmltooling/io/HTTPRequest.cpp:169-193 | The range en-us is matched by en-US and by EN and not by en-u5 |
| LanguageMatch.Fence | xmltooling/io/HTTPRequest.cpp:169-193 | Comparing at the fence and moving it back is one step of the fallback of section 3.4 of RFC 4647, single-character subtags included |
| LanguageMatch.StandardExactly | xmltooling/io/HTTPRequest.cpp:169-193 | The answer is that of section 3.4 of RFC 4647 for every tag if and only if the range does not end in a single-character subtag after others |
| LanguageMatch.OwnTextMissed | xmltooling/io/HTTPRequest.cpp:169-193 | A range that does end so does not match its own text, which the standard's fallback tries first |
| LanguageMatch.PrivateUseSuffix | xmltooling/io/HTTPRequest.cpp:169-193 | The smallest such case: en-x is not matched by en-x |
| ParserPools.ParserPool.CheckoutBuilder | xmltooling/util/ParserPool.cpp:397-409 | The parser given out was held by nobody, carries no error handler and knows the current schema locations; all others are untouched |
| ParserPools.ParserPool.CheckinBuilder | xmltooling/util/ParserPool.cpp:411-417 | The parser is on top of the pool and held no more |
| ParserPools.ParserPool.BeginParse | xmltooling/util/ParserPool.cpp:134-140 | A parse holds a parser nobody else holds |
| ParserPools.ParserPool.EndParse | xmltooling/util/ParserPool.cpp:138-178 | On every exit the parser is given up once: pooled without a handler, or destroyed on an exception of an unforeseen kind |
| ParserPools.ParserPool.LoadSchema | xmltooling/util/ParserPool.cpp:197-230 | The mapping is added exactly if the file exists, and the location hint names exactly the mapped namespaces |
| ParserPools.ParserPool.LoadCatalog | xmltooling/util/ParserPool.cpp:254-323 | A document that does not parse or has another root changes nothing and is refused; otherwise the mappings are added in order, later over earlier, and the location hint names exactly the mapped namespaces |
| ParserPools.ParserPool.Destroy | xmltooling/util/ParserPool.cpp:121-127 | Every parser in the pool is released, each once; with no parse at work every parser ever made has been released |
| ParserPools.Interleave | xmltooling/util/ParserPool.cpp:134-179 | However parses begin and end on several threads, every parser ever made is in the pool, held by exactly one parse, or destroyed, in one of these only, and no pooled parser has a handler |
| UnknownElements.UnknownElement.MarshallInDocument | xmltooling/impl/UnknownElement.cpp:109-191 | Reused exactly if the document agrees, else imported or parsed again: the result says what the object stood for, fails exactly without parseable content, and no document is leaked or released while owned |
| UnknownElements.UnknownElement.MarshallInElement | xmltooling/impl/UnknownElement.cpp:194-265 | The same under an element of any document, reused exactly if that is its own; the document parsed on the way is released |
| UnknownElements.UnknownElement.Unmarshall | xmltooling/impl/UnknownElement.cpp:267-271 | The object stands for the element and owns its document if bound, giving back just the one it owned before; text from before is left in place |
| UnknownElements.CloneExactly | xmltooling/impl/UnknownElement.cpp:70-82 | A clone stands for the same content if and only if any text beside the element is up to date |
| UnknownElements.StaleClone | xmltooling/impl/UnknownElement.cpp:70-82 | Unmarshalling a second time after a release leaves old text that the clone then stands for |
| UnknownElements.NeverLost | xmltooling/impl/UnknownElement.cpp:55-265 | After one unmarshal, any sequence of release, marshall of either kind and clone keeps the content: every element made on the way and the last object say what was read, the last object owns at most one document, and what it caches is in a live one |

## Left out

- Slots: children are the ones present; an empty child slot has no entry of its own. `setTextContent` counts empty slots towards its limit in the source, which this model does not.
- Schema locations: `xsi:schemaLocation` and `xsi:noNamespaceSchemaLocation` are read past and not kept.
- Forests.Forest.Append: putting an object under one of its own descendants is excluded by a precondition, since the source checks only for a parent; so for `Forests.Forest.AssignChild`.
- XmlTree.XMLObject.PushBack: the two trees are separate, for the same reason; so in `XmlTree.XMLObject.AssignSlot`.
- Forests.Forest.MarshallInto: the target is no part of the object's own DOM, which Xerces refuses with an exception of its own.
- Forests.Forest.Build: over elements that no live object caches; two objects that cache one element can both be in step only until one of them is marshalled elsewhere. The same for `Forests.Forest.Unmarshall`.
- Forests.Forest.Marshall: a schema type with an empty local part is excluded by the precondition `Typed`, since the source throws in the middle of marshalling and leaves elements behind that no object accounts for; `Unmarshalling.TypeWritable` says which elements lead there.
- Declarations.MarshallHead: the same precondition on the schema type.
- Marshalling.MarshallUnder: the same for everything below; so in `Marshalling.Rebuild`, `Marshalling.MarshallAnew`, `Marshalling.MarshallContent`, `DocumentMarshalling.MarshallInDocument`, `DocumentMarshalling.MarshallAfresh`, `DocumentMarshalling.MarshallInElement` and `Forests.Forest.MarshallInto`.
- XmlTree.XMLObject.Detach: says nothing of an element cached in the document given up; `Forests.Forest.Detach` does.
- Forests.Forest.Unmarshall: binding is for the document element, and for a document that no object owns yet; `setDOM` puts any other element at the top.
- Bare calls of the public `releaseDOM` and `releaseChildrenDOM`, and bare `removeNamespace`: they can break the cache invariant.
- Order inside `std::map` and `std::set`: attributes are a map, namespaces a sequence in order of insertion; no result here depends on the order.
- Marking attributes as IDs in the DOM: whether an attribute is an ID is a parameter; the object's own ID pointer is modelled.
- The lookup behind the namespace of an `xsi:type` prefix on reading is Xerces' own and is a parameter.
- `prepareForAssignment` over strings, names and times: the same shape as `nil`.
- `AnyElementImpl::clone` without a DOM, `cloneDOM`, signatures and credentials.
- UnknownElements.UnknownElement.MarshallInElement: the release of the ancestors' DOM, which is `XmlTree.XMLObject.ReleaseParentDOM`; likewise in `UnknownElements.UnknownElement.MarshallInDocument`.
- UnknownElements.UnknownElement.MarshallInDocument: `replaceChild` on the target document's old root is seen only as the new root taking its place.
- UnknownElements.UnknownElement.Unmarshall: that binding makes the element the root of its document.
- Parsing and serializing are a pair of functions of which one undoes the other.
- The curl engine is a script of calls, each delivering any chunks; waiting with `select`, error texts and a failing allocation are left out.
- The content type of a transfer and the cache tag.
- MemoryStorage.MemoryStore.UpdateString: version numbers do not overflow.
- `createText` and its kin: the same calls under another name. The hash of the replay cache is a parameter.
- ReplayDetection.ReplaySafety: checks that overlap in time, since the read and the create are two locked operations and the result of the create is ignored.
- When the cleanup thread wakes up and how it shuts down: its pass may come at any time.
- `startLangMatching` and `continueLangMatching`: quality values are floating point, iteration is a plain cursor.
- Reading a catalog document, testing for files and `resolveResource`: the mappings and the existence of the file are inputs.
- ParserPools.ParserPool.LoadSchema: the text of the location hint is modelled as the set of namespaces it names.
- Plugin and builder registries, path resolver, library start and stop, thread wrappers, cookies, SOAP.
