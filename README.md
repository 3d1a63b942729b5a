# Rodin core, modelled in Dafny

Rodin is a C++ finite-element library built on MFEM and MMG. Users write variational
problems as expression trees, which Rodin turns into bilinear and linear integrators
and assembles into global matrices and vectors. Rodin also keeps meshes with their face
topology, submeshes and grid functions. It reads and writes meshes in the MFEM, Gmsh
(version 2.2, ASCII) and MEDIT formats, and writes grid functions as MEDIT solution
files. It converts meshes and solutions to and from MMG for remeshing and for the
level-set discretisation of implicit domains.

This project models the bookkeeping around the numerical kernels:

| module | file | what it models |
|---|---|---|
| `Assembly`, `Scatter` | assembly.dfy, scatter.dfy | the native assembler. It sorts integrators by region, filters them by attribute and scatter-adds local matrices and vectors |
| `AttributeUnion` | attribute_union.dfy | what the attribute filter implies: an integrator over every attribute assembles to the sum of its restrictions to each attribute |
| `NativeAssembly` | native_assembly.dfy | the older single-pass bilinear assembler |
| `Rank3`, `ShapeOperators`, `Layout`, `Dense` | rank3.dfy, shape_operators.dfy, layout.dfy, dense.dfy | rank-3 basis tensors: trace, transpose, sums, products and contractions, and the scalar and Jacobian shape operators |
| `TensorBases` | tensor_basis.dfy | tensor bases and their arithmetic |
| `RangeShapes`, `Expressions` | range_shape.dfy, expressions.dfy | range shapes and types, proxy dispatch, and the shape rules, trace domains and values of products and sums |
| `FormList`, `Integrators`, `Marker` | form_list.dfy, integrators.dfy, marker.dfy | the clone-owning list, integrator attribute filters and integration orders, and attribute markers |
| `Elements`, `Meshes`, `MeshOperations`, `SubMeshes`, `MeshBuilders` | elements.dfy, meshes.dfy, mesh_ops.dfy, submesh.dfy, mesh_builder.dfy | meshes, faces, keep/trim, connected components, trace, submesh inclusion and the mesh builder |
| `GridFunctions` | grid_function.dfy | grid function arithmetic, projection on attributes, and transfer between a submesh and its parent |
| `MmgMeshes`, `MmgSolutions`, `ImplicitMeshers` | mmg_mesh.dfy, mmg_solution.dfy, implicit_mesher.dfy | the MMG conversions and the settings of the implicit domain mesher |
| `Text`, `MeshFormats`, `MeshLoaders`, `MeshPrinters`, `GridFunctionPrinters` | io_text.dfy, io_helpers.dfy, mesh_loader.dfy, mesh_printer.dfy, gf_printer.dfy | format detection, the mesh loaders and printers, and the solution printer |
| `EssentialBoundaries` | essential_boundary.dfy | the essential boundary's value maps |
| `Wrappers`, `Sets` | wrappers.dfy, sets.dfy | Option and Result, and a fact about non-empty sets |

Modelling conventions:
- Objects whose fields the library updates in place are classes, and the loops that
  fill arrays are methods with loop invariants. Each method is proved against a
  function, and the properties are proved about that function.
- Doubles are `real`. Indices are unbounded integers.
- Failed assertions in the library become preconditions. The MEDIT loader is the
  exception: there a failed assertion is the `Aborted` outcome.
- A raised exception or a false status becomes an error value that carries the
  library's message.
- Foreign numerics are inputs to the model: element matrices and vectors, element
  volumes and areas, and MMG's remeshing.
- `BasisOperator.cpp` repeats the tensor operations of `Rank3Operator.cpp` on its own
  classes. The `Rank3` module models them once.
- Where the code departs from what it evidently intends, the model follows the code.
  Each departure is listed under "## Findings", and the rest of the model uses the
  corrected definition beside it.

## Model

| member | source | states |
|---|---|---|
| `RangeShapes.MakeShape` | src/Rodin/Variational/RangeShape.h:21-27 | construction needs height > 0 and width > 0 and keeps both dimensions |
| `RangeShapes.Transpose` | src/Rodin/Variational/RangeShape.h:43-47 | the transpose swaps height and width and is valid exactly when the shape is |
| `RangeShapes.TransposeInvolution` | src/Rodin/Variational/RangeShape.h:43-47 | transposing twice gives back the shape |
| `RangeShapes.EqualIffSame` | src/Rodin/Variational/RangeShape.h:49-59 | == holds iff both dimensions agree; != is its negation |
| `RangeShapes.GetRangeType` | src/Rodin/Variational/Function.cpp:128-143 | 1×1 is Scalar, h > 1 with w = 1 is Vector, any width above 1 (so a 1×n row too) is Matrix, each as an iff |
| `RangeShapes.TransposeRangeType` | src/Rodin/Variational/Function.cpp:128-143 | transposing keeps Scalar, turns a Vector into a Matrix, and a Vector transpose came from a Matrix |
| `RangeShapes.ScalarProxyOf` | src/Rodin/Variational/Function.cpp:163-167 | the scalar proxy accepts only a Scalar range |
| `RangeShapes.VectorProxyOf` | src/Rodin/Variational/Function.cpp:188-195 | the vector proxy accepts only a Vector range; its dimension (width of a row, else height) is then the height |
| `RangeShapes.MatrixProxyOf` | src/Rodin/Variational/Function.cpp:219-224 | the matrix proxy accepts only a Matrix range and keeps height and width |
| `RangeShapes.Build` | src/Rodin/Variational/Function.cpp:145-158 | build picks the scalar, vector or matrix proxy exactly when getRangeType says so |
| `RangeShapes.BuildSize` | src/Rodin/Variational/Function.cpp:145-158 | the proxy built always has as many entries as the range shape |
| `Expressions.WellFormedShapeValid` | src/Rodin/Variational/Mult.cpp:34-44 | a tree the checked constructors built has a valid range shape |
| `Expressions.MakeMult` | src/Rodin/Variational/Mult.cpp:14-22 | the product is built iff at least one operand is Scalar, else IncompatibleShapeException |
| `Expressions.MultShapeIsNonScalarOperand` | src/Rodin/Variational/Mult.cpp:34-44 | the product has the shape of its non-scalar operand (1×1 when both are scalar), whatever the operand order |
| `Expressions.MultValueCommutes` | src/Rodin/Variational/Mult.cpp:55-76 | the value (other operand scaled by the scalar operand's (0,0) entry) has the product's shape and does not depend on operand order |
| `Expressions.MultGetValue` | src/Rodin/Variational/Mult.cpp:55-76 | fills a fresh matrix of the product's shape with the selected operand's value, scaled in place row by row |
| `Expressions.ScaleRow` | src/Rodin/Variational/Mult.cpp:75 | scales one row in place and leaves every other entry unchanged |
| `Expressions.MakeSum` | src/Rodin/Variational/Sum.cpp:16-21 | the sum is built iff both shapes are equal, else RangeShapeMismatchException; its shape is the lhs's (and the rhs's) |
| `Expressions.SumAddAssign` | src/Rodin/Variational/Sum.cpp:48-54 | `+= x` succeeds iff x has the rhs's shape; the rhs becomes Sum(x, old rhs) and lhs and trace stay |
| `Expressions.AddAssignAddsTerm` | src/Rodin/Variational/Sum.cpp:48-54 | after `+= x` the sum stays well formed with the same shape and its terms are lhs, x, old rhs in that order |
| `Expressions.TraceOfProperties` | src/Rodin/Variational/Mult.cpp:46-53 | traceOf reaches every node, changes only trace domains, keeps shape and well-formedness, and the last call wins |
| `Expressions.FunctionObject.TraceOfAttrs` | src/Rodin/Variational/Sum.cpp:33-40 | traceOf sets the attribute set on self and (recursively) both children and returns self |
| `Expressions.FunctionObject.AddAssign` | src/Rodin/Variational/Sum.cpp:48-54 | the in-place `+=`: the new tree on success, the object unchanged when the shapes clash |
| `Expressions.PlusIntegrators` | src/Rodin/Variational/Sum.cpp:62-71 | bfi + bfi is the fresh list [lhs, rhs] |
| `Expressions.PlusIntegratorList` | src/Rodin/Variational/Sum.cpp:73-81 | bfi + list is the list followed by lhs, so lhs ends up last |
| `Expressions.PlusListIntegrator` | src/Rodin/Variational/Sum.cpp:83-91 | list + bfi appends rhs |
| `Expressions.PlusLists` | src/Rodin/Variational/Sum.cpp:93-102 | list + list is the concatenation in order, of length the sum of the lengths |
| `FormList.CopyAssignAsWritten` | src/Rodin/FormLanguage/List.h:85-94 | copy-assignment as written: self-assignment keeps the list, otherwise the other list's clones are appended after the old contents |
| `FormList.CopyAssign` | src/Rodin/FormLanguage/List.h:85-94 | copy-assignment as intended: the target ends up equal to the source |
| `FormList.CopyAssignAppends` | src/Rodin/FormLanguage/List.h:85-94 | assigning [b] to [a] leaves [a, b], not [b] |
| `FormList.CopyAssignAgreement` | src/Rodin/FormLanguage/List.h:85-94 | the written and the intended assignment agree iff it is a self-assignment or the target starts empty |
| `FormList.List.constructor` | src/Rodin/FormLanguage/List.h:68 | a new list is empty |
| `FormList.List.Copy` | src/Rodin/FormLanguage/List.h:70-76 | the copy holds the same elements in the same order, in a list of its own |
| `FormList.List.Move` | src/Rodin/FormLanguage/List.h:78-81 | the move constructor takes the other list's elements and leaves it empty |
| `FormList.List.AssignCopy` | src/Rodin/FormLanguage/List.h:85-94 | copy-assignment as written (see CopyAssignAsWritten) |
| `FormList.List.AssignCopyCorrected` | src/Rodin/FormLanguage/List.h:85-94 | copy-assignment as intended: the list equals the other afterwards |
| `FormList.List.AssignMove` | src/Rodin/FormLanguage/List.h:96-100 | move-assignment takes the other list's elements |
| `FormList.List.Add` | src/Rodin/FormLanguage/List.h:102-106 | add(v) grows the list by one and v is last |
| `FormList.List.AddAll` | src/Rodin/FormLanguage/List.h:108-114 | add(list) appends all the other list's elements in order |
| `FormList.List.Clear` | src/Rodin/FormLanguage/List.h:116-120 | clear leaves the list empty |
| `FormList.List.Size` | src/Rodin/FormLanguage/List.h:122-125 | size is the number of stored elements |
| `FormList.List.Clone` | src/Rodin/FormLanguage/List.h:157-160 | copy() is a fresh list with the same elements |
| `Integrators.DefaultBilinearOrder` | src/Rodin/Variational/Integral.h:108-120 | default bilinear order = trial order + test order + OrderW |
| `Integrators.GradGradOrder` | src/Rodin/Variational/Integral.h:429-444 | Grad·Grad order is trial + test − 2 on Pk spaces and trial + test + dim − 1 otherwise |
| `Integrators.GradGradPkIsGradientDegree` | src/Rodin/Variational/Integral.h:429-444 | on equal-order Pk spaces the Grad·Grad order is 2(p−1), 2 + OrderW below the default |
| `Integrators.DefaultLinearOrder` | src/Rodin/Variational/Integral.h:264-274 | default linear order = test order + OrderW |
| `Integrators.DotLinearOrder` | src/Rodin/Variational/Integral.h:981-990 | the Dot(f, v) order is twice the test order, with no weight term |
| `Integrators.DotDeviceOrder` | src/Rodin/Variational/Integral.h:992-998 | the device Dot(f, v) order is twice the order of the space's first element |
| `Integrators.AttributeMatchesEmpty` | src/Rodin/Variational/BilinearFormIntegrator.h:22-26 | the empty attribute set matches every attribute |
| `Integrators.BilinearIntegral.Integral` | src/Rodin/Variational/Integral.h:108-120 | a new Integral is a Domain integrator with an empty attribute set and the default order |
| `Integrators.BilinearIntegral.BoundaryIntegral` | src/Rodin/Variational/Integral.h:181-189 | a BoundaryIntegral reports Boundary |
| `Integrators.BilinearIntegral.InterfaceIntegral` | src/Rodin/Variational/Integral.h:213-221 | an InterfaceIntegral reports Interface |
| `Integrators.BilinearIntegral.GradGradIntegral` | src/Rodin/Variational/Integral.h:429-444 | the Grad·Grad specialisation installs the Grad·Grad order |
| `Integrators.BilinearIntegral.Copy` | src/Rodin/Variational/BilinearFormIntegrator.h:28-32 | the copy constructor copies the attribute set (and region and order) |
| `Integrators.BilinearIntegral.GetRegion` | src/Rodin/Variational/Integral.h:156-159 | getRegion is the fixed region tag |
| `Integrators.BilinearIntegral.GetType` | src/Rodin/Variational/BilinearFormIntegrator.h:92-95 | getType is always Bilinear |
| `Integrators.BilinearIntegral.GetAttributes` | src/Rodin/Variational/BilinearFormIntegrator.h:43-46 | getAttributes returns the stored set |
| `Integrators.BilinearIntegral.Over` | src/Rodin/Variational/BilinearFormIntegrator.h:85-90 | over(attrs) needs a non-empty set, replaces the attribute set and returns self |
| `Integrators.BilinearIntegral.OverAttribute` | src/Rodin/Variational/BilinearFormIntegrator.h:73-76 | over(a) sets the attribute set to {a} |
| `Integrators.BilinearIntegral.SetIntegrationOrder` | src/Rodin/Variational/Integral.h:139-144 | setIntegrationOrder replaces the order strategy, keeps the attributes and returns self |
| `Integrators.BilinearIntegral.GetIntegrationOrder` | src/Rodin/Variational/Integral.h:146-149 | getIntegrationOrder applies the stored strategy |
| `Integrators.CopyThenOver` | src/Rodin/Variational/BilinearFormIntegrator.h:28-32 | restricting a copy gives a distinct integrator; the original's attribute set is untouched |
| `Integrators.LinearIntegral.Integral` | src/Rodin/Variational/Integral.h:264-274 | a new linear Integral is a Domain integrator with an empty attribute set and the default linear order |
| `Integrators.LinearIntegral.BoundaryIntegral` | src/Rodin/Variational/Integral.h:325-332 | the linear BoundaryIntegral reports Boundary |
| `Integrators.LinearIntegral.DotIntegral` | src/Rodin/Variational/Integral.h:981-990 | the Dot(f, v) specialisation installs twice the test order |
| `Integrators.LinearIntegral.GetRegion` | src/Rodin/Variational/Integral.h:305-308 | getRegion is the fixed region tag |
| `Integrators.LinearIntegral.GetAttributes` | src/Rodin/Variational/LinearFormIntegrator.h:52-55 | getAttributes returns the stored set |
| `Integrators.LinearIntegral.Over` | src/Rodin/Variational/LinearFormIntegrator.h:105-110 | over(attrs) needs a non-empty set and replaces the attribute set |
| `Integrators.LinearIntegral.SetIntegrationOrder` | src/Rodin/Variational/Integral.h:287-292 | setIntegrationOrder replaces the order strategy and returns self |
| `Integrators.GridFunctionIntegral.constructor` | src/Rodin/Variational/Integral.h:353-363 | needs a scalar space; starts not assembled |
| `Integrators.GridFunctionIntegral.Compute` | src/Rodin/Variational/Integral.h:377-385 | the first compute assembles, every later one updates, and m_assembled is set |
| `Marker.MarkerOf` | src/Rodin/Utility/MFEM.h:14-24 | the marker has length `size`; entry i is 1 iff attribute i + 1 is in the set and 0 otherwise |
| `Marker.MarkerCountsAttributes` | src/Rodin/Utility/MFEM.h:18-24 | when every attribute lies in 1..size the marker holds exactly \|s\| ones |
| `Marker.SetToMarker` | src/Rodin/Utility/MFEM.h:14-25 | set2marker needs every v > 0 and v − 1 < size, fills zeros, then writes 1 at v − 1 for each v; the array is MarkerOf(s, size) |
| `Scatter.AddSubMatrix` | src/Rodin/Variational/Assembly/Native.cpp:50-53 | AddSubMatrix adds each local entry sub(i, j) to global entry (rows[i], cols[j]) and nothing else |
| `Scatter.BlockShareOutside` | src/Rodin/Variational/Assembly/Native.cpp:50-53 | a local matrix adds nothing to a global entry outside its test-dof rows and trial-dof columns |
| `Scatter.AddAllConcat` | src/Rodin/Variational/Assembly/Native.cpp:42-88 | scatter-adding is additive: adding xs then ys equals adding xs + ys |
| `Scatter.AddElementVector` | src/Rodin/Variational/Assembly/Native.cpp:133 | AddElementVector adds each local entry at its dof |
| `Scatter.AddAllVectorsConcat` | src/Rodin/Variational/Assembly/Native.cpp:125-162 | adding local vectors is additive in the same way |
| `Assembly.OfRegionMembers` | src/Rodin/Variational/Assembly/Native.cpp:20-40 | a region list holds exactly the integrators of that region, keeping their order |
| `Assembly.PartitionIsExact` | src/Rodin/Variational/Assembly/Native.cpp:16-40 | the three region lists together are as long as the input, so no integrator is lost or duplicated |
| `Assembly.PartitionIntegrators` | src/Rodin/Variational/Assembly/Native.cpp:16-40 | the switch loop builds the Domain, Boundary and Interface lists |
| `Assembly.BlocksAtMembers` | src/Rodin/Variational/Assembly/Native.cpp:44-55 | on one simplex an integrator contributes iff its attribute set is empty or holds the simplex's attribute |
| `Assembly.BlocksAtFit` | src/Rodin/Variational/Assembly/Native.cpp:50-53 | each contributed element matrix lands inside the testSize × trialSize result |
| `Assembly.BlocksOverMembers` | src/Rodin/Variational/Assembly/Native.cpp:42-56 | the contributions of a region loop are exactly the attribute-matched (simplex, integrator) pairs |
| `Assembly.BlocksOverFit` | src/Rodin/Variational/Assembly/Native.cpp:42-56 | every block of a region loop fits the result |
| `Assembly.AllBlocksFit` | src/Rodin/Variational/Assembly/Native.cpp:42-88 | every block of the three loops fits the result |
| `Assembly.Assembled` | src/Rodin/Variational/Assembly/Native.cpp:13-14 | the result has testSize rows and trialSize columns |
| `Assembly.AssembledEntry` | src/Rodin/Variational/Assembly/Native.cpp:42-88 | each result entry is the sum of what the matching element matrices add there, starting from zero |
| `Assembly.NoIntegratorsGiveZero` | src/Rodin/Variational/Assembly/Native.cpp:13-14 | an empty integrator list yields the zero matrix |
| `Assembly.RegionsAreSeparate` | src/Rodin/Variational/Assembly/Native.cpp:58-88 | boundary integrators only visit boundary faces and interface integrators only interface faces |
| `Assembly.AddBlocksOn` | src/Rodin/Variational/Assembly/Native.cpp:44-55 | the inner integrator loop on one simplex adds exactly that simplex's matched blocks |
| `Assembly.AddRegion` | src/Rodin/Variational/Assembly/Native.cpp:42-56 | a region loop adds the region's matched blocks, simplex by simplex |
| `Assembly.AssembleBilinear` | src/Rodin/Variational/Assembly/Native.cpp:9-90 | the bilinear execute returns the testSize × trialSize matrix Assembled(inp) |
| `Assembly.VectorsAtMembers` | src/Rodin/Variational/Assembly/Native.cpp:127-135 | on one simplex a linear integrator contributes iff its attribute filter accepts the simplex |
| `Assembly.VectorsAtFit` | src/Rodin/Variational/Assembly/Native.cpp:133 | each element vector lands inside the fes-sized result |
| `Assembly.VectorsOverMembers` | src/Rodin/Variational/Assembly/Native.cpp:125-136 | the contributions of a linear region loop are exactly the matched pairs |
| `Assembly.VectorsOverFit` | src/Rodin/Variational/Assembly/Native.cpp:125-136 | every local vector of a region loop fits |
| `Assembly.AllVectorsOfInputFit` | src/Rodin/Variational/Assembly/Native.cpp:125-162 | every local vector of the three loops fits |
| `Assembly.AssembledVector` | src/Rodin/Variational/Assembly/Native.cpp:96-97 | the result has the space's size |
| `Assembly.AssembledVectorEntry` | src/Rodin/Variational/Assembly/Native.cpp:125-162 | each entry is the sum of what the matching local vectors add there, starting from zero |
| `Assembly.NoLinearIntegratorsGiveZero` | src/Rodin/Variational/Assembly/Native.cpp:96-97 | no integrators yield the zero vector |
| `Assembly.LinearRegionsAreSeparate` | src/Rodin/Variational/Assembly/Native.cpp:138-162 | linear boundary and interface integrators only visit their own faces |
| `AttributeUnion.OverAll` | src/Rodin/Variational/Assembly/Native.cpp:46-48 | restricting every integrator to {a} keeps the list's length and changes only the attribute sets |
| `AttributeUnion.WithAttributeMembers` | src/Rodin/Variational/Assembly/Native.cpp:42-48 | the simplices with attribute a are exactly those of the list with that attribute |
| `AttributeUnion.OfRegionOverAll` | src/Rodin/Variational/Assembly/Native.cpp:16-40 | sorting by region commutes with restricting every integrator to {a} |
| `AttributeUnion.RestrictedValid` | src/Rodin/Variational/Assembly/Native.cpp:9-90 | restricting every integrator of a valid bilinear input to {a} keeps it valid |
| `AttributeUnion.BlocksAtRestricted` | src/Rodin/Variational/Assembly/Native.cpp:44-55 | on one simplex, integrators restricted to {a} contribute the blocks of the unrestricted ones when the simplex has attribute a, and nothing otherwise |
| `AttributeUnion.BlocksOverRestricted` | src/Rodin/Variational/Assembly/Native.cpp:42-56 | a region loop with integrators restricted to {a} contributes exactly what the unrestricted loop contributes on the simplices with attribute a |
| `AttributeUnion.RegionSharesTotal` | src/Rodin/Variational/Assembly/Native.cpp:42-56 | when the attributes are distinct and cover every simplex, a region's share of an entry is the sum of the shares of the simplices with each attribute |
| `AttributeUnion.RestrictedEntry` | src/Rodin/Variational/Assembly/Native.cpp:42-88 | each entry of the assembly restricted to {a} is the sum of the three regions' shares from the simplices with attribute a |
| `AttributeUnion.RestrictedSumRegions` | src/Rodin/Variational/Assembly/Native.cpp:42-88 | the sum over the attributes of the restricted assemblies' entries is the sum of each region's per-attribute shares |
| `AttributeUnion.EmptyAttributesIsUnion` | src/Rodin/Variational/Assembly/Native.cpp:42-88 | when every integrator has an empty attribute set and the distinct attributes cover every simplex, each entry of the assembled matrix is the sum over the attributes of that entry of the assembly with every integrator restricted to that attribute |
| `AttributeUnion.LinearRestrictedValid` | src/Rodin/Variational/Assembly/Native.cpp:92-164 | the same restriction keeps a valid linear input valid |
| `AttributeUnion.VectorsAtRestricted` | src/Rodin/Variational/Assembly/Native.cpp:127-135 | on one simplex, linear integrators restricted to {a} contribute the unrestricted local vectors exactly when the simplex has attribute a |
| `AttributeUnion.VectorsOverRestricted` | src/Rodin/Variational/Assembly/Native.cpp:125-136 | a linear region loop restricted to {a} contributes what the unrestricted loop contributes on the simplices with attribute a |
| `AttributeUnion.LinearRegionSharesTotal` | src/Rodin/Variational/Assembly/Native.cpp:125-136 | a linear region's share of an entry is the sum of its per-attribute shares |
| `AttributeUnion.LinearRestrictedEntry` | src/Rodin/Variational/Assembly/Native.cpp:125-162 | each entry of the restricted vector assembly is the sum of the regions' shares from the simplices with attribute a |
| `AttributeUnion.LinearRestrictedSumRegions` | src/Rodin/Variational/Assembly/Native.cpp:125-162 | the sum over the attributes of the restricted vector entries is the sum of the per-attribute shares |
| `AttributeUnion.EmptyAttributesIsUnionLinear` | src/Rodin/Variational/Assembly/Native.cpp:125-162 | for linear integrators with empty attribute sets, each entry of the assembled vector is the sum over the attributes of the entries of the per-attribute assemblies |
| `Assembly.AddVectorsOn` | src/Rodin/Variational/Assembly/Native.cpp:127-135 | the inner loop on one simplex adds its matched local vectors |
| `Assembly.AddVectorRegion` | src/Rodin/Variational/Assembly/Native.cpp:125-136 | a linear region loop adds its matched local vectors |
| `Assembly.AssembleLinear` | src/Rodin/Variational/Assembly/Native.cpp:92-164 | the linear execute returns AssembledVector(inp), of the space's size |
| `NativeAssembly.IntegratorMajorFit` | src/Rodin/Variational/NativeAssembly.cpp:11-28 | every block of the integrator-outer loops fits the result |
| `NativeAssembly.SinglePassAssembled` | src/Rodin/Variational/NativeAssembly.cpp:5-49 | the result exists iff every integrator is a Domain one (a Boundary or Interface one is a fatal assertion) and is testSize × trialSize |
| `NativeAssembly.AddIntegratorPass` | src/Rodin/Variational/NativeAssembly.cpp:17-28 | one pass over the elements adds one integrator's attribute-matched blocks |
| `NativeAssembly.PassStep` | src/Rodin/Variational/NativeAssembly.cpp:19-27 | one element of a pass adds its block iff the attribute matches |
| `NativeAssembly.BlocksAtSingle` | src/Rodin/Variational/NativeAssembly.cpp:20-27 | a single integrator contributes on an element iff it accepts the attribute |
| `NativeAssembly.AssembleSinglePass` | src/Rodin/Variational/NativeAssembly.cpp:5-49 | execute processes the integrators in list order, one element pass each, and returns SinglePassAssembled |
| `NativeAssembly.MajorStep` | src/Rodin/Variational/NativeAssembly.cpp:11-17 | each further integrator adds its own pass's blocks |
| `NativeAssembly.SharesOverSnoc` | src/Rodin/Variational/NativeAssembly.cpp:11-28 | appending an integrator adds its pass's share to every entry |
| `NativeAssembly.LoopOrderIrrelevant` | src/Rodin/Variational/NativeAssembly.cpp:11-28 | integrator-outer and element-outer loops give every entry the same sum |
| `NativeAssembly.OfRegionAllDomain` | src/Rodin/Variational/NativeAssembly.cpp:13-16 | with Domain integrators only, the Domain list is the whole list and the others are empty |
| `NativeAssembly.SinglePassAgreesWithNative` | src/Rodin/Variational/NativeAssembly.cpp:5-49 | with Domain integrators only, the older path returns the same matrix as the Native assembler |
| `Rank3.TraceOf` | src/Rodin/Variational/Rank3Operator.cpp:5-18 | the trace needs rows == cols and has shape 1 × 1 × dofs |
| `Rank3.TransposeOf` | src/Rodin/Variational/Rank3Operator.cpp:20-34 | the transpose is cols × rows × dofs |
| `Rank3.SumOf` | src/Rodin/Variational/Rank3Operator.cpp:36-53 | the sum needs equal rows, cols and dofs and keeps that shape |
| `Rank3.ScalarMatrixMultOf` | src/Rodin/Variational/Rank3Operator.cpp:55-67 | a 1 × 1 operator times an r × c matrix is r × c × dofs |
| `Rank3.ScalarVectorMultOf` | src/Rodin/Variational/Rank3Operator.cpp:69-79 | a 1 × 1 operator times a vector is \|v\| × 1 × dofs |
| `Rank3.LeftMultOf` | src/Rodin/Variational/Rank3Operator.cpp:81-101 | the intended left product (lhs times each slice) is lhs.rows × cols × dofs |
| `Rank3.RightMultOf` | src/Rodin/Variational/Rank3Operator.cpp:103-123 | the intended right product (each slice times rhs) is rows × rhs.cols × dofs |
| `Rank3.VectorDotOf` | src/Rodin/Variational/Rank3Operator.cpp:125-145 | VectorDot needs a row or column operator and gives shape 1 × 1 × dofs |
| `Rank3.MatrixDotOf` | src/Rodin/Variational/BasisOperator.cpp:121-139 | MatrixDot needs a matrix of the operator's shape and gives shape 1 × 1 × dofs |
| `Rank3.OperatorDotOf` | src/Rodin/Variational/Rank3Operator.cpp:167-187 | OperatorDot needs equal rows and cols and gives a dofs × rhs.dofs matrix |
| `Rank3.AddedToVector` | src/Rodin/Variational/Rank3Operator.cpp:189-196 | AddToVector keeps the vector's length |
| `Rank3.TransposeInvolution` | src/Rodin/Variational/Rank3Operator.cpp:20-34 | transposing twice gives the operator back |
| `Rank3.TraceOfTranspose` | src/Rodin/Variational/BasisOperator.cpp:13-42 | the trace of the transpose is the trace |
| `Rank3.TraceIsMatrixDotWithIdentity` | src/Rodin/Variational/BasisOperator.cpp:121-139 | MatrixDot with the identity is the trace |
| `Rank3.SumCommutes` | src/Rodin/Variational/BasisOperator.cpp:44-61 | OperatorSum is commutative |
| `Rank3.SumEntries` | src/Rodin/Variational/Rank3Operator.cpp:36-53 | each entry of the sum is the sum of the entries |
| `Rank3.OperatorDotSymmetric` | src/Rodin/Variational/BasisOperator.cpp:141-161 | swapping OperatorDot's operands transposes the result |
| `Rank3.OperatorDotIsMatrixDot` | src/Rodin/Variational/Rank3Operator.cpp:147-187 | column j of OperatorDot(a, b) is a's MatrixDot with slice j of b |
| `Rank3.ScalarVectorIsColumnMatrix` | src/Rodin/Variational/Rank3Operator.cpp:55-79 | ScalarVectorMult is ScalarMatrixMult on the vector as a column |
| `Rank3.VectorDotOfTranspose` | src/Rodin/Variational/Rank3Operator.cpp:125-145 | dotting a row operator or its transposed column gives the same values |
| `Rank3.MultIdentity` | src/Rodin/Variational/Rank3Operator.cpp:81-123 | the intended left and right products are neutral for the identity |
| `Rank3.AsWrittenMultExactForOneInnerIndex` | src/Rodin/Variational/Rank3Operator.cpp:81-123 | with a single inner index the as-written products are exact |
| `Rank3.LeftMultAsWrittenLosesTerms` | src/Rodin/Variational/Rank3Operator.cpp:81-101 | the 2 × 2 identity times the one-dof operator (1, 0): the as-written entry (0,0,0) is 0, the product's is 1 |
| `Rank3.RightMultAsWrittenLosesTerms` | src/Rodin/Variational/Rank3Operator.cpp:103-123 | the one-dof operator (1, 0) times the 2 × 2 identity: as written 0 at (0,0,0), intended 1 |
| `Rank3.AddedToVectorTwice` | src/Rodin/Variational/Rank3Operator.cpp:189-196 | adding two operators one after the other adds their OperatorSum |
| `Rank3.Trace` | src/Rodin/Variational/Rank3Operator.cpp:5-18 | the index loops give result(0,0,k) = Σ_i A(i,i,k) on a zeroed 1 × 1 × dofs tensor; requires the positive rows, columns and dofs that the DenseRank3Operator constructor asserts for the result |
| `Rank3.Transpose` | src/Rodin/Variational/Rank3Operator.cpp:20-34 | the index loops give T(k,j,i) = A(j,k,i) in a cols × rows × dofs tensor; requires the positive rows, columns and dofs that the DenseRank3Operator constructor asserts for the result |
| `Rank3.OperatorSum` | src/Rodin/Variational/Rank3Operator.cpp:36-53 | the index loops give R(i,j,k) = A(i,j,k) + B(i,j,k); requires the positive rows, columns and dofs that the DenseRank3Operator constructor asserts for the result |
| `Rank3.ScalarMatrixMult` | src/Rodin/Variational/Rank3Operator.cpp:55-67 | slice i is lhs scaled by A(0,0,i); requires the positive rows, columns and dofs that the DenseRank3Operator constructor asserts for the result |
| `Rank3.ScalarFill` | src/Rodin/Variational/Rank3Operator.cpp:63-64 | one slice is set to lhs and scaled; the others stay |
| `Rank3.ScalarVectorMult` | src/Rodin/Variational/Rank3Operator.cpp:69-79 | R(i,0,l) = lhs(i) · A(0,0,l); requires the positive rows, columns and dofs that the DenseRank3Operator constructor asserts for the result |
| `Rank3.AddToVector` | src/Rodin/Variational/Rank3Operator.cpp:189-196 | needs a 1 × 1 operator with dofs == vec size and adds A(0,0,i) to vec[i] |
| `Rank3.LeftMatrixMult` | src/Rodin/Variational/Rank3Operator.cpp:81-101 | as written: every entry holds only the k = n − 1 term, lhs(i, n−1) · A(n−1, j, l); requires the positive rows, columns and dofs that the DenseRank3Operator constructor asserts for the result |
| `Rank3.LeftInnerLoop` | src/Rodin/Variational/Rank3Operator.cpp:93-96 | the assigning inner loop leaves only its last term in one entry |
| `Rank3.RightMatrixMult` | src/Rodin/Variational/Rank3Operator.cpp:103-123 | as written: every entry holds only the k = n − 1 term, A(i, n−1, l) · rhs(n−1, j); requires the positive rows, columns and dofs that the DenseRank3Operator constructor asserts for the result |
| `Rank3.RightInnerLoop` | src/Rodin/Variational/Rank3Operator.cpp:115-118 | the assigning inner loop leaves only its last term in one entry |
| `Rank3.LeftMatrixMultSummed` | src/Rodin/Variational/Rank3Operator.cpp:81-101 | with `+=` in the inner loop, each slice is lhs times the slice (LeftMultOf); requires the positive rows, columns and dofs that the DenseRank3Operator constructor asserts for the result |
| `Rank3.LeftFill` | src/Rodin/Variational/Rank3Operator.cpp:89-98 | one slice of the accumulating left product |
| `Rank3.LeftFillRow` | src/Rodin/Variational/Rank3Operator.cpp:91-97 | one row of a slice of the accumulating left product |
| `Rank3.LeftInnerSum` | src/Rodin/Variational/Rank3Operator.cpp:93-96 | the accumulating inner loop computes one product entry |
| `Rank3.RightMatrixMultSummed` | src/Rodin/Variational/Rank3Operator.cpp:103-123 | with `+=` in the inner loop, each slice is the slice times rhs (RightMultOf); requires the positive rows, columns and dofs that the DenseRank3Operator constructor asserts for the result |
| `Rank3.RightFill` | src/Rodin/Variational/Rank3Operator.cpp:111-120 | one slice of the accumulating right product |
| `Rank3.RightFillRow` | src/Rodin/Variational/Rank3Operator.cpp:113-119 | one row of a slice of the accumulating right product |
| `Rank3.RightInnerSum` | src/Rodin/Variational/Rank3Operator.cpp:115-118 | the accumulating inner loop computes one product entry |
| `Rank3.VectorDot` | src/Rodin/Variational/Rank3Operator.cpp:125-145 | a row operator is summed along its columns and a column operator along its rows against rhs; requires the positive rows, columns and dofs that the DenseRank3Operator constructor asserts for the result |
| `Rank3.MatrixDot` | src/Rodin/Variational/Rank3Operator.cpp:147-165 | result(0,0,k) = Σ A(i,j,k) · M(i,j); requires the positive rows, columns and dofs that the DenseRank3Operator constructor asserts for the result |
| `Rank3.OperatorDot` | src/Rodin/Variational/Rank3Operator.cpp:167-187 | R(i,j) = Σ_{l,m} A(l,m,i) · B(l,m,j) in a dofs × rhs.dofs matrix |
| `Rank3.OperatorDotRow` | src/Rodin/Variational/Rank3Operator.cpp:175-184 | one row of OperatorDot |
| `Rank3.SliceInner` | src/Rodin/Variational/Rank3Operator.cpp:177-183 | the two inner loops compute one OperatorDot entry |
| `Rank3.SliceRowInner` | src/Rodin/Variational/Rank3Operator.cpp:179-182 | the innermost loop adds one row's products |
| `ShapeOperators.ScalarShapeEntryLayout` | src/Rodin/Variational/Rank3Operator.cpp:258-264 | dof k + i·n of the scalar shape operator is shape(k) in row i and 0 in every other row |
| `ShapeOperators.JacobianShapeEntryLayout` | src/Rodin/Variational/Rank3Operator.cpp:213-220 | dof k + i·n of the Jacobian operator is dshape(k, row) in column i and 0 elsewhere |
| `ShapeOperators.ScalarShapeOperator.Dense` | src/Rodin/Variational/BasisOperator.cpp:218-240 | SSFBO is vdim × 1 × (n·vdim) with entry (row,0,dof) = [dof / n == row] · shape(dof % n) |
| `ShapeOperators.ScalarShapeOperator.Scale` | src/Rodin/Variational/BasisOperator.cpp:242-247 | after `*= s` every SSFBO entry is scaled by s |
| `ShapeOperators.ScalarShapeOperator.Fill` | src/Rodin/Variational/BasisOperator.cpp:249-254 | `= s` sets every stored shape value to s |
| `ShapeOperators.ScalarShapeOperator.VectorDot` | src/Rodin/Variational/Rank3Operator.cpp:280-293 | the override's result(0,0,k + i·n) = shape(k) · rhs(i) equals the generic VectorDot of the dense operator; requires the positive rows, columns and dofs that the DenseRank3Operator constructor asserts for the result |
| `ShapeOperators.ScalarShapeOperator.VectorDotAgrees` | src/Rodin/Variational/Rank3Operator.cpp:280-293 | the generic contraction at dof d is shape(d % n) · rhs(d / n) |
| `ShapeOperators.JacobianShapeOperator.Dense` | src/Rodin/Variational/BasisOperator.cpp:172-195 | JSSFBO is sdim × vdim × (rows(dshape)·vdim) with entry [dof / n == col] · dshape(dof % n, row) |
| `ShapeOperators.JacobianShapeOperator.Scale` | src/Rodin/Variational/BasisOperator.cpp:197-201 | after `*= s` every JSSFBO entry is scaled by s |
| `ShapeOperators.JacobianShapeOperator.Fill` | src/Rodin/Variational/BasisOperator.cpp:203-207 | `= s` sets every stored gradient entry to s |
| `ShapeOperators.JacobianShapeOperator.Trace` | src/Rodin/Variational/BasisOperator.cpp:209-216 | the override reading the column-major gradient storage equals the generic trace of the dense operator; requires the positive rows, columns and dofs that the DenseRank3Operator constructor asserts for the result |
| `ShapeOperators.JacobianShapeOperator.TraceAgrees` | src/Rodin/Variational/Rank3Operator.cpp:234-241 | the diagonal sum at dof d is storage slot d |
| `TensorBases.TensorBasis.constructor` | src/Rodin/Variational/BasisOperator.h:44-53 | the new basis has `dofs` values and its i-th value is f(i) for every i below `dofs` |
| `TensorBases.TensorBasis.Get` | src/Rodin/Variational/BasisOperator.h:87-93 | defined only for an index below the number of stored values (the source's assert), and returns one of the stored values |
| `TensorBases.TensorBasis.Apply` | src/Rodin/Variational/BasisOperator.h:65-72 | a fresh basis with the same number of dofs whose i-th value is f applied to the i-th value of this basis |
| `TensorBases.Combine` | src/Rodin/Variational/BasisOperator.h:244-277 | the generic `+`, `-` and `*` of two bases: both must have the same dofs, and the result's i-th value combines the operands' i-th values |
| `TensorBases.Plus` | src/Rodin/Variational/BasisOperator.h:244-251 | the intended scalar sum: same length, entry i is lhs[i] + rhs[i] |
| `TensorBases.Minus` | src/Rodin/Variational/BasisOperator.h:253-260 | the intended scalar difference: same length, entry i is lhs[i] - rhs[i] |
| `TensorBases.Negated` | src/Rodin/Variational/BasisOperator.h:317-321 | unary minus: same length, entry i is -op[i] |
| `TensorBases.Times` | src/Rodin/Variational/BasisOperator.h:270-277 | pointwise product of two bases of equal dofs |
| `TensorBases.Scaled` | src/Rodin/Variational/BasisOperator.h:323-333 | `s * basis` and `basis * s`: entry i is s times op[i] |
| `TensorBases.Divided` | src/Rodin/Variational/BasisOperator.h:295-301 | the intended division by a non-zero scalar: entry i is op[i] / s |
| `TensorBases.MinusInvertsPlus` | src/Rodin/Variational/BasisOperator.h:244-268 | subtracting b undoes adding b, adding b undoes subtracting b, and adding -b equals subtracting b |
| `TensorBases.DividedInvertsScaled` | src/Rodin/Variational/BasisOperator.h:295-301 | dividing by s undoes scaling by s and scaling undoes dividing, for every non-zero s |
| `TensorBases.PlusAsWritten` | src/Rodin/Variational/BasisOperator.h:303-308 | the scalar `operator+` as written adds lhs to itself; its length is that of lhs |
| `TensorBases.MinusAsWritten` | src/Rodin/Variational/BasisOperator.h:310-315 | the scalar `operator-` as written subtracts lhs from itself; its length is that of lhs |
| `TensorBases.DividedAsWritten` | src/Rodin/Variational/BasisOperator.h:335-339 | the scalar `operator/` as written multiplies by the scalar; its length is that of the operand |
| `TensorBases.PlusAsWrittenIgnoresRhs` | src/Rodin/Variational/BasisOperator.h:303-308 | for lhs = [0] and rhs = [1] the as-written sum is [0] where the intended sum is [1] |
| `TensorBases.AsWrittenAgreesOnlyOnEqualOperands` | src/Rodin/Variational/BasisOperator.h:303-315 | the as-written scalar `+` and `-` agree with the intended operators if and only if the two operands are equal |
| `TensorBases.DividedAsWrittenMultiplies` | src/Rodin/Variational/BasisOperator.h:335-339 | [1] / 2 gives [2] as written where the intended result is [0.5] |
| `Elements.VertexCount` | src/Rodin/Geometry/Element.h:11-22 | each geometry type has between 1 and 8 vertices; a point has 1, a segment 2, a triangle 3, a square or a tetrahedron 4 (each stated as an if-and-only-if) |
| `Elements.FaceElements` | src/Rodin/Geometry/Element.cpp:73-85 | an id is in the result exactly when it is non-negative and is one of the two element ids of the face; at most two ids |
| `Elements.FaceElementsPair` | src/Rodin/Geometry/Element.cpp:77-78 | a face has two adjacent elements if and only if both ids are non-negative and different |
| `Elements.FaceElementList` | src/Rodin/Geometry/Element.cpp:73-85 | the same ids as `FaceElements`, in strictly ascending order (the iteration order of the returned set) |
| `Meshes.SizeDecrement` | src/Rodin/Geometry/Mesh.cpp:33-36 | `x - 1` in size_t arithmetic: the result is (x + SIZE_MAX) mod 2^64, so 0 - 1 is SIZE_MAX |
| `Meshes.FaceToBoundary` | src/Rodin/Geometry/Mesh.cpp:190-195 | the map built by `f2b[GetBdrElementEdgeIndex(i)] = i`: its keys are exactly the faces that carry a boundary element, and each maps to a boundary element on that face |
| `Meshes.FaceToBoundaryStep` | src/Rodin/Geometry/Mesh.cpp:193-194 | one more pass of the f2b loop is one more map update on top of the earlier entries |
| `Meshes.FaceToBoundaryIsLast` | src/Rodin/Geometry/Mesh.cpp:193-194 | later assignments win: a face maps to an index at least as large as any boundary element on it |
| `Meshes.BoundaryFaces` | src/Rodin/Geometry/Mesh.cpp:218-229 | the faces of the boundary elements that are not interior: every non-interior boundary face is listed, every listed face is non-interior and carries a boundary element |
| `Meshes.InterfaceFaces` | src/Rodin/Geometry/Mesh.cpp:231-241 | strictly increasing, and a face below the bound is listed if and only if it is interior |
| `Meshes.Mesh.constructor` | src/Rodin/Geometry/Mesh.cpp:190-195 | taking over a finalized mesh keeps every field and sets f2b to `FaceToBoundary` of the boundary faces |
| `Meshes.Mesh.Copy` | src/Rodin/Geometry/Mesh.cpp:364-372 | the copy that `keep` starts from holds every field of the original |
| `Meshes.Mesh.BuildFaceToBoundary` | src/Rodin/Geometry/Mesh.cpp:459-460 | after the loop f2b is its old contents overridden by `FaceToBoundary` of the boundary faces |
| `Meshes.Mesh.IsSurface` | src/Rodin/Geometry/Mesh.cpp:33-36 | true if and only if sdim = dim + 1 with sdim > 0, or sdim = 0 and dim = SIZE_MAX (the wrap-around of `sdim - 1`) |
| `Meshes.Mesh.GetCount` | src/Rodin/Geometry/Mesh.cpp:197-216 | the element count for the mesh dimension, the face count for one below it, the vertex count for 0; any other dimension is excluded (the source's assert) |
| `Meshes.Mesh.GetBoundary` | src/Rodin/Geometry/Mesh.cpp:218-229 | returns exactly `BoundaryFaces` of the boundary elements' faces |
| `Meshes.Mesh.GetInterface` | src/Rodin/Geometry/Mesh.cpp:231-241 | strictly increasing, and a face is listed if and only if it is interior |
| `Meshes.Mesh.IsInterface` | src/Rodin/Geometry/Mesh.cpp:258-261 | true if and only if the face is interior |
| `Meshes.Mesh.IsBoundary` | src/Rodin/Geometry/Mesh.cpp:263-266 | true if and only if the face is not an interface |
| `Meshes.Mesh.GetAttribute` | src/Rodin/Geometry/Mesh.cpp:268-296 | an element's own attribute; for a face, the attribute of the boundary element f2b maps it to, or the default attribute when it has none; dimension 0 and other dimensions are excluded (the source's assert) |
| `Meshes.Mesh.GetFaceAttribute` | src/Rodin/Geometry/Mesh.cpp:274-285 | a face in f2b reports its boundary element's attribute, any other face the default attribute |
| `Meshes.Mesh.FaceAttributeFromBoundary` | src/Rodin/Geometry/Mesh.cpp:190-195 | with f2b built from the topology, a face carrying boundary elements reports the attribute of the last of them, and any other face the default attribute |
| `Meshes.Mesh.SetAttribute` | src/Rodin/Geometry/Mesh.cpp:298-320 | sets the attribute of the element, or of the boundary element of the face (a face without one is excluded, the source's assert); any other dimension changes nothing; afterwards `GetAttribute` returns the new attribute |
| `Meshes.Mesh.Attributes` | src/Rodin/Geometry/Mesh.cpp:38-42 | an attribute is in the set if and only if some element carries it |
| `Meshes.Mesh.KeepIndices` | src/Rodin/Geometry/Mesh.cpp:373-378 | strictly increasing element indices, and an element is listed if and only if its attribute is in the given set |
| `Meshes.Mesh.Initialize` | src/Rodin/Geometry/Mesh.cpp:413-418 | an empty mesh with the given dimensions |
| `Meshes.Mesh.Vertex` | src/Rodin/Geometry/Mesh.cpp:420-431 | an error if and only if the coordinates do not have the space dimension; otherwise the vertex is appended, and on error nothing changes |
| `Meshes.Mesh.AddElement` | src/Rodin/Geometry/Mesh.cpp:433-442 | appends an element of the given geometry made of the first `VertexCount(geom)` ids and carrying the attribute |
| `Meshes.Mesh.AddFace` | src/Rodin/Geometry/Mesh.cpp:444-453 | appends a boundary element the same way |
| `Meshes.Mesh.Finalize` | src/Rodin/Geometry/Mesh.cpp:455-462 | installs the computed topology and then overrides f2b with `FaceToBoundary`; the mesh is then finalized |
| `Meshes.Mesh.SetConnectivity` | src/Rodin/Geometry/MeshBuilder.cpp:94-97 | the builder's incidence tables replace the mesh's own; the mesh stays well formed and every other field is unchanged |
| `Meshes.Mesh.Adjacent` | src/Rodin/Geometry/Element.cpp:20-31 | a set holding exactly the entries of the element's row of the element-to-element table, all of them element indices |
| `Meshes.Mesh.SetElementAttribute` | src/Rodin/Geometry/Element.cpp:50-54 | changes that element's attribute and nothing else |
| `Meshes.Mesh.BoundaryElementAt` | src/Rodin/Geometry/Element.cpp:88-92 | a boundary element view refers to face `GetBdrFace(i)`, an existing face, and keeps i as its index |
| `MeshOperations.AttributeSumSplits` | src/Rodin/Mesh/Mesh.cpp:116-122 | the attribute-weighted sum plus the sum over the other parts is the total sum: each part is counted exactly when its attribute matches |
| `MeshOperations.AttributeSumAbsent` | src/Rodin/Mesh/Mesh.cpp:116-122 | when no part carries the attribute, the weighted sum is zero |
| `MeshOperations.GetVolume` | src/Rodin/Mesh/Mesh.cpp:108-114 | the total is the sum of all element volumes |
| `MeshOperations.GetVolumeOf` | src/Rodin/Mesh/Mesh.cpp:116-122 | the total is the sum of each element volume times (attribute == attr) |
| `MeshOperations.GetPerimeterAsWritten` | src/Rodin/Mesh/Mesh.cpp:139-145 | as written the loop runs over the element count while reading boundary element areas: it needs at least as many boundary elements as elements and sums only the first (element count) areas |
| `MeshOperations.GetPerimeter` | src/Rodin/Mesh/Mesh.cpp:139-145 | as intended: the sum of all boundary element areas |
| `MeshOperations.PerimeterAsWrittenMissesEdges` | src/Rodin/Mesh/Mesh.cpp:139-145 | one triangle with three unit boundary edges: the as-written loop sums 1 where the perimeter is 3 |
| `MeshOperations.GetPerimeterOf` | src/Rodin/Mesh/Mesh.cpp:147-153 | the sum of each boundary element area times (boundary attribute == attr) |
| `MeshOperations.Where` | src/Rodin/Mesh/Mesh.cpp:155-162 | an index is in the result if and only if it is an element index and the element satisfies the predicate |
| `MeshOperations.Edited` | src/Rodin/Geometry/Element.cpp:50-54 | an element view can only change its own attribute: geometry and vertices are kept, and the attribute is the new one when set |
| `MeshOperations.Edit` | src/Rodin/Mesh/Mesh.cpp:164-169 | every element becomes `Edited` by the callback's answer for it, and the element count is unchanged |
| `MeshOperations.EditBoundary` | src/Rodin/Mesh/Mesh.cpp:171-176 | every boundary element becomes `Edited` by the callback's answer for it, and the count is unchanged |
| `MeshOperations.EditSome` | src/Rodin/Mesh/Mesh.cpp:178-188 | the listed elements (each an element index, the source's asserts) are edited, every other element is unchanged |
| `MeshOperations.UnionMember` | src/Rodin/Mesh/Mesh.cpp:196-231 | every member of a component is in the union of the components |
| `MeshOperations.BoundedSetSize` | src/Rodin/Mesh/Mesh.cpp:204-229 | a set of indices below n has at most n members (the measure that ends the search) |
| `MeshOperations.Explore` | src/Rodin/Mesh/Mesh.cpp:208-228 | the search from a seed: the new component is disjoint from what was visited before, contains the seed, every accepted neighbour of its members has been visited, and every member is reached from the seed by a walk along accepted edges that stays inside the component |
| `MeshOperations.SearchStep` | src/Rodin/Mesh/Mesh.cpp:212-226 | one iteration pops the last stack entry; an entry not yet visited joins the component and the visited set, one already visited leaves both unchanged; the search invariant, walks from the seed included, is kept |
| `MeshOperations.PushAccepted` | src/Rodin/Mesh/Mesh.cpp:219-225 | pushes on top of the stack exactly neighbours that p accepts, every accepted neighbour at least once, and each pushed entry is reached from the seed by a walk |
| `MeshOperations.IsolatedSeedAlone` | src/Rodin/Mesh/Mesh.cpp:219-225 | a component spanned from a seed that has no accepted edge holds that seed alone, so two elements p never links fall in different components |
| `MeshOperations.UnionAppend` | src/Rodin/Mesh/Mesh.cpp:208 | the union grows by exactly the appended component |
| `MeshOperations.DisjointAppend` | src/Rodin/Mesh/Mesh.cpp:206-218 | a component disjoint from the earlier ones keeps the components pairwise disjoint |
| `MeshOperations.ClosedAppend` | src/Rodin/Mesh/Mesh.cpp:219-225 | appending a component whose accepted edges stay inside the visited elements keeps every component closed |
| `MeshOperations.ClosedLast` | src/Rodin/Mesh/Mesh.cpp:219-225 | the appended component is closed under the accepted edges |
| `MeshOperations.ClosedKept` | src/Rodin/Mesh/Mesh.cpp:219-225 | appending a component keeps an earlier component closed |
| `MeshOperations.Ccl` | src/Rodin/Mesh/Mesh.cpp:196-231 | the components are pairwise disjoint, their union is exactly the elements, each is closed under the element-to-element edges the predicate accepts, every member of a component is reached from its seed by a walk along accepted edges inside that component, and they come in ascending order of seeds, each seed being its component's least element |
| `MeshOperations.FindTouching` | src/Rodin/Mesh/Mesh.cpp:325-333 | true if and only if some element beside the face has an attribute in the set |
| `MeshOperations.KeepSelection` | src/Rodin/Mesh/Mesh.cpp:306-337 | the kept elements are exactly those whose attribute is in the set; the kept boundary elements are exactly those beside such an element; both in ascending order, each once |
| `MeshOperations.TrimSelection` | src/Rodin/Mesh/Mesh.cpp:356-362 | keep with the complement of the set within the mesh's attributes: an element is kept if and only if its attribute is not in the set |
| `MeshOperations.TraceKey` | src/Rodin/Mesh/Mesh.cpp:371-376 | the set of attributes of the two elements beside the face |
| `MeshOperations.TracedFaces` | src/Rodin/Mesh/Mesh.cpp:367-387 | ascending, and a face is listed if and only if it lies between two elements whose attribute pair is a key of the map |
| `MeshOperations.TracedElement` | src/Rodin/Mesh/Mesh.cpp:380-384 | the added boundary element has the face's geometry and vertices and the attribute the map gives the pair |
| `MeshOperations.TraceStep` | src/Rodin/Mesh/Mesh.cpp:367-387 | one more face appends its boundary element when it is traced and nothing otherwise |
| `MeshOperations.Trace` | src/Rodin/Mesh/Mesh.cpp:364-390 | the old boundary elements are kept and followed, in face order, by one `TracedElement` per traced face |
| `MeshOperations.TraceNext` | src/Rodin/Mesh/Mesh.cpp:369-386 | one pass of the loop extends the appended boundary elements by the next face |
| `Meshes.Mesh.SetBoundaryAttribute` | src/Rodin/Geometry/Element.cpp:101-105 | changes that boundary element's attribute and nothing else |
| `SubMeshes.Insert` | src/Rodin/Geometry/SubMesh.cpp:42 | a bimap insertion adds the pair in both directions when neither id is present, and otherwise leaves the bimap unchanged |
| `SubMeshes.MapsToExtends` | src/Rodin/Geometry/SubMesh.cpp:36-48 | a mapped vertex list keeps its meaning when the vertex map grows |
| `SubMeshes.MapsToAppend` | src/Rodin/Geometry/SubMesh.cpp:36-48 | mapping one more vertex extends the mapped vertex list by one |
| `SubMeshes.CopiedBoundary` | src/Rodin/Geometry/SubMesh.cpp:59-66 | ascending, and a parent boundary element is listed if and only if its face is beside an included element |
| `SubMeshes.InsertAllRecords` | src/Rodin/Geometry/SubMesh.cpp:27-57 | the element loop over distinct ascending ids records exactly the ids that were not in the element map before, each against its new submesh element, and keeps every earlier pair |
| `SubMeshes.InsertStep` | src/Rodin/Geometry/SubMesh.cpp:55-56 | the last insertion of the element loop keeps the recorded pairs and records the new id when it is new |
| `SubMeshes.SubMesh.constructor` | src/Rodin/Geometry/SubMesh.cpp:7-9 | an empty submesh of the parent with empty vertex and element maps |
| `SubMeshes.SubMesh.Copy` | src/Rodin/Geometry/SubMesh.cpp:11-15 | copies the mesh data, the parent and the vertex map; the element map is not copied and starts empty |
| `SubMeshes.SubMesh.MapVertex` | src/Rodin/Geometry/SubMesh.cpp:36-48 | a parent vertex already in the map yields its submesh id and changes nothing; otherwise it is appended as a new submesh vertex and recorded; either way the result maps to the parent vertex |
| `SubMeshes.SubMesh.MapVertices` | src/Rodin/Geometry/SubMesh.cpp:35-48 | the submesh ids map back, position by position, to the element's parent vertices; the vertex map only grows |
| `SubMeshes.SubMesh.IncludeElement` | src/Rodin/Geometry/SubMesh.cpp:29-56 | appends one element copying the parent element's geometry and attribute with its vertices mapped, and inserts the (submesh, parent) pair into the element map |
| `SubMeshes.SubMesh.CopiesKept` | src/Rodin/Geometry/SubMesh.cpp:27-57 | the element copies made so far stay copies as the vertex map grows and an element is appended |
| `SubMeshes.SubMesh.IncludeElements` | src/Rodin/Geometry/SubMesh.cpp:27-57 | one copy per listed parent element, in order, appended to the existing elements, and the element map is `InsertAll` of the listed ids |
| `SubMeshes.SubMesh.IncludeNext` | src/Rodin/Geometry/SubMesh.cpp:27-57 | one iteration of the element loop extends the copies and the element map by the next id |
| `SubMeshes.SubMesh.MapFaceVertices` | src/Rodin/Geometry/SubMesh.cpp:68-71 | succeeds if and only if every face vertex is in the vertex map (the lookup `at` throws otherwise), and the result maps back to the face's vertices |
| `SubMeshes.SubMesh.CopyStep` | src/Rodin/Geometry/SubMesh.cpp:65-77 | one step of the boundary loop appends the copy of a boundary element whose face is beside an included element |
| `SubMeshes.SubMesh.BoundaryCopies` | src/Rodin/Geometry/SubMesh.cpp:59-78 | succeeds if and only if every needed face can be mapped; then each parent boundary element beside an included element is copied, in order, with its face's geometry, its parent face attribute and its vertices mapped back |
| `SubMeshes.SubMesh.BoundaryNext` | src/Rodin/Geometry/SubMesh.cpp:61-77 | one iteration of the boundary loop: fails exactly when the face is needed and cannot be mapped, else extends the copies |
| `SubMeshes.SubMesh.IncludeBoundary` | src/Rodin/Geometry/SubMesh.cpp:59-78 | on success the copies are appended to the existing boundary elements; success exactly when every needed face can be mapped |
| `SubMeshes.SubMesh.BoundaryCopiedShift` | src/Rodin/Geometry/SubMesh.cpp:76 | copies made from an empty list stay copies when appended to an existing boundary |
| `SubMeshes.SubMesh.Include` | src/Rodin/Geometry/SubMesh.cpp:22-90 | for the mesh dimension (other dimensions are the source's failed asserts): the element copies and element map of `IncludeElements`, then the boundary copies of `IncludeBoundary`, with an error exactly when a face vertex is missing from the vertex map |
| `SubMeshes.FreshElementMap` | src/Rodin/Geometry/SubMesh.cpp:55-56 | in a fresh submesh, submesh element k maps to the k-th included id and the parent ids in the map are exactly the included ones |
| `SubMeshes.Keep` | src/Rodin/Geometry/Mesh.cpp:364-382 | a submesh of the same dimensions whose elements are copies of exactly the parent elements with an attribute in the set, in ascending order, with the element map pairing them, and the boundary copies of `Include`; it succeeds when every vertex of every boundary face beside a kept element belongs to a kept element |
| `SubMeshes.KeptVerticesMappable` | src/Rodin/Geometry/SubMesh.cpp:27-76 | once the kept elements are copied, every boundary face beside them whose vertices belong to them can be mapped back |
| `SubMeshes.Trim` | src/Rodin/Geometry/Mesh.cpp:390-401 | keep with the complement: the submesh holds copies of exactly the parent elements whose attribute is not in the set, and succeeds under the same vertex condition |
| `MeshBuilders.FlattenSnoc` | src/Rodin/Geometry/MeshBuilder.cpp:86-92 | the index list of k + 1 elements is that of the first k followed by element k's vertices |
| `MeshBuilders.FlattenPrefix` | src/Rodin/Geometry/MeshBuilder.cpp:86-92 | the index list of the first k elements is a prefix of the whole index list |
| `MeshBuilders.Offsets` | src/Rodin/Geometry/MeshBuilder.cpp:83 | one more offset than there are elements |
| `MeshBuilders.OffsetsShape` | src/Rodin/Geometry/MeshBuilder.cpp:83-92 | the offsets start at 0, grow by each element's vertex count and end at the length of the index list |
| `MeshBuilders.ElementTableDescribes` | src/Rodin/Geometry/MeshBuilder.cpp:82-101 | the intended table describes the elements: it has one row per element, and row i of the index list is exactly element i's vertex list |
| `MeshBuilders.ElementTableAsWrittenWrong` | src/Rodin/Geometry/MeshBuilder.cpp:100-101 | the table as written (the second `setOffsets` call overwrites the offsets with the index list) describes no mesh that has an element with a vertex |
| `MeshBuilders.ElementTableAsWrittenExample` | src/Rodin/Geometry/MeshBuilder.cpp:100-101 | for one triangle on vertices 0, 1, 2 the offsets as written are [0, 1, 2] where [0, 3] with indices [0, 1, 2] is meant |
| `MeshBuilders.BuildElementTable` | src/Rodin/Geometry/MeshBuilder.cpp:82-92 | the loop fills the offsets buffer with `Offsets` and pushes exactly `Flatten` of the elements |
| `MeshBuilders.Builder.constructor` | src/Rodin/Geometry/MeshBuilder.cpp:13-14 | no mesh and no tables |
| `MeshBuilders.Builder.SetMesh` | src/Rodin/Geometry/MeshBuilder.cpp:16-23 | records the mesh and adds an empty (dim, 0) table unless one is already there (`emplace` keeps an existing entry) |
| `MeshBuilders.Builder.Vertex` | src/Rodin/Geometry/MeshBuilder.cpp:25-40 | an error if and only if the coordinate count differs from the space dimension; otherwise the vertex is appended, and on error nothing changes |
| `MeshBuilders.Builder.Element` | src/Rodin/Geometry/MeshBuilder.cpp:42-55 | appends an element made of the first `VertexCount(geom)` ids with the attribute |
| `MeshBuilders.Builder.Face` | src/Rodin/Geometry/MeshBuilder.cpp:57-70 | appends a boundary element made of the first `VertexCount(geom)` ids with the attribute |
| `MeshBuilders.Builder.Finalize` | src/Rodin/Geometry/MeshBuilder.cpp:72-105 | installs the topology, replaces the mesh's tables by the single (dim, 0) table `ElementTable` of its elements, which describes them, empties the builder's tables and overrides f2b with `FaceToBoundary` |
| `MeshBuilders.Builder.FinalizeAsWritten` | src/Rodin/Geometry/MeshBuilder.cpp:72-105 | as written: the same, except that the (dim, 0) table has an empty index list and the index list as offsets |
| `GridFunctions.SlotInRange` | src/Rodin/Variational/GridFunction.cpp:237-250 | with either ordering, every (vertex, component) pair has a slot inside a vector of n times vdim entries |
| `GridFunctions.SlotInjective` | src/Rodin/Variational/GridFunction.cpp:237-250 | distinct (vertex, component) pairs have distinct slots, so no write of the transfer loops overwrites another |
| `GridFunctions.WriteHit` | src/Rodin/Variational/GridFunction.cpp:241 | one write of the copy loop, for a mapped vertex, copies that pair and leaves every slot no pair has reached so far untouched |
| `GridFunctions.WriteMiss` | src/Rodin/Variational/GridFunction.cpp:274-275 | a vertex the map does not know writes nothing, and the loop invariants move on |
| `GridFunctions.NextRow` | src/Rodin/Variational/GridFunction.cpp:239-241 | the end of an inner loop is the start of the next outer iteration |
| `GridFunctions.AllRows` | src/Rodin/Variational/GridFunction.cpp:237-250 | once every outer iteration has run, the destination is `Transferred` from the source |
| `GridFunctions.CopyPair` | src/Rodin/Variational/GridFunction.cpp:241 | the loop body on the buffer: copies the pair at the loop position when its vertex is mapped |
| `GridFunctions.CopyByNodes` | src/Rodin/Variational/GridFunction.cpp:237-243 | node ordering: each slot (m(j), c) of the destination holds slot (j, c) of the source, every other slot keeps its value |
| `GridFunctions.CopyByVDim` | src/Rodin/Variational/GridFunction.cpp:244-250 | component ordering: the same result with slots p * vdim + c |
| `GridFunctions.CopyThrough` | src/Rodin/Variational/GridFunction.cpp:235-251 | the copy for the source space's ordering yields `Transferred` |
| `GridFunctions.BimapMapsInto` | src/Rodin/Variational/GridFunction.cpp:229-231 | both directions of a valid vertex bimap are injective and stay within the submesh and parent vertex ranges |
| `GridFunctions.Pointwise` | src/Rodin/Variational/GridFunction.cpp:57-130 | the vector operation has the length of its operands |
| `GridFunctions.SelfPlus` | src/Rodin/Variational/GridFunction.cpp:57-62 | x + x is x scaled by 2, so the `x += x` shortcut agrees with the general operator |
| `GridFunctions.SelfMinus` | src/Rodin/Variational/GridFunction.cpp:77-82 | x - x is the zero vector, so the `x -= x` shortcut agrees with the general operator |
| `GridFunctions.SelfDivide` | src/Rodin/Variational/GridFunction.cpp:118-123 | x / x is the vector of ones wherever x has no zero entry |
| `GridFunctions.CombineInPlace` | src/Rodin/Variational/GridFunction.cpp:66 | the in-place loop leaves a[k] op b[k] in every entry |
| `GridFunctions.ScalarInPlace` | src/Rodin/Variational/GridFunction.cpp:51-55 | the in-place loop leaves a[k] op t in every entry |
| `GridFunctions.FillInPlace` | src/Rodin/Variational/GridFunction.cpp:132-136 | every entry holds the value |
| `GridFunctions.FESpace.constructor` | src/Rodin/Variational/GridFunction.cpp:228-231 | the space records its mesh, optional submesh, vector dimension and ordering, and its vertex count is the mesh's |
| `GridFunctions.GridFunction.constructor` | src/Rodin/Variational/GridFunction.cpp:51-136 | a new grid function on the space is a fresh zero vector of vdim times nv entries |
| `GridFunctions.GridFunction.AddScalar` | src/Rodin/Variational/GridFunction.cpp:51-55 | every entry is increased by t |
| `GridFunctions.GridFunction.SubtractScalar` | src/Rodin/Variational/GridFunction.cpp:71-75 | every entry is decreased by t |
| `GridFunctions.GridFunction.Scale` | src/Rodin/Variational/GridFunction.cpp:91-95 | every entry is multiplied by t |
| `GridFunctions.GridFunction.DivideScalar` | src/Rodin/Variational/GridFunction.cpp:112-116 | every entry is divided by a non-zero t |
| `GridFunctions.GridFunction.Assign` | src/Rodin/Variational/GridFunction.cpp:132-136 | every entry becomes v |
| `GridFunctions.GridFunction.AddAssign` | src/Rodin/Variational/GridFunction.cpp:57-69 | `x += x` doubles x; otherwise the operands share the space (the source's assert) and rhs is added entry by entry |
| `GridFunctions.GridFunction.SubtractAssign` | src/Rodin/Variational/GridFunction.cpp:77-89 | `x -= x` sets x to 0; otherwise rhs is subtracted entry by entry |
| `GridFunctions.GridFunction.MultiplyAssign` | src/Rodin/Variational/GridFunction.cpp:97-110 | `x *= x` squares every entry; otherwise entries are multiplied pairwise |
| `GridFunctions.GridFunction.DivideAssign` | src/Rodin/Variational/GridFunction.cpp:118-130 | `x /= x` sets x to 1; otherwise entries are divided pairwise |
| `GridFunctions.GridFunction.ProjectOn` | src/Rodin/Variational/GridFunction.cpp:155-156 | the listed degrees of freedom take the interpolant's value, every other entry keeps its value |
| `GridFunctions.GridFunction.Project` | src/Rodin/Variational/GridFunction.cpp:138-185 | an error if and only if the function is matrix-valued, and then nothing changes; with no attributes the whole vector becomes the interpolant; otherwise exactly the degrees of freedom of elements whose attribute is in the set take the interpolant's value |
| `GridFunctions.GridFunction.GetRangeShape` | src/Rodin/Variational/GridFunction.cpp:324-327 | the shape is vdim by 1, valid exactly when vdim is positive |
| `GridFunctions.GridFunction.X` | src/Rodin/Variational/GridFunction.cpp:329-333 | component 0, which must exist (the source's assert) |
| `GridFunctions.GridFunction.Y` | src/Rodin/Variational/GridFunction.cpp:335-339 | component 1, which must exist |
| `GridFunctions.GridFunction.Z` | src/Rodin/Variational/GridFunction.cpp:341-345 | component 2, which must exist |
| `GridFunctions.GridFunction.Transfer` | src/Rodin/Variational/GridFunction.cpp:211-297 | an error if and only if neither mesh is a submesh of the other's, and then nothing changes; from a submesh to its parent and from a parent to its submesh the destination is `Transferred` through the vertex map in the matching direction |
| `GridFunctions.GridFunctionRangeType` | src/Rodin/Variational/GridFunction.cpp:464-480 | a grid function with one component has the scalar range type, one with more the vector range type |
| `MmgMeshes.ScanRefs` | src/RodinExternal/MMG/Cast.cpp:52-70 | the reference loop fails, with that kind's message, exactly when some reference is negative, and otherwise reports whether some reference is zero |
| `MmgMeshes.ShiftedTrianglesPositive` | src/RodinExternal/MMG/Cast.cpp:62-103 | raising all triangle references by one when one of them is zero leaves every triangle attribute at least one |
| `MmgMeshes.ShiftedSegmentsPositive` | src/RodinExternal/MMG/Cast.cpp:52-60 | the same for edge references turned into boundary segments |
| `MmgMeshes.ShiftedTetrahedraPositive` | src/RodinExternal/MMG/Cast.cpp:431-439 | the same for tetrahedron references |
| `MmgMeshes.ToRodin2DProperties` | src/RodinExternal/MMG/Cast.cpp:31-117 | the MMG 2D to library conversion fails exactly on zero triangles or a negative edge or triangle reference; otherwise it yields a well-formed planar mesh whose element and boundary attributes are all at least one |
| `MmgMeshes.ToRodin3DProperties` | src/RodinExternal/MMG/Cast.cpp:391-492 | the 3D conversion fails exactly on zero tetrahedra or a negative edge, triangle or tetrahedron reference; otherwise a well-formed mesh with attributes at least one |
| `MmgMeshes.ToRodinSProperties` | src/RodinExternal/MMG/Cast.cpp:664-751 | the surface conversion fails exactly on zero triangles or a negative reference; otherwise a well-formed mesh of dimension 2 in space dimension 3 with attributes at least one |
| `MmgMeshes.PointOf` | src/RodinExternal/MMG/Cast.cpp:175-179 | an MMG point has three coordinates: the vertex's own, then zeros |
| `MmgMeshes.AreaSwap` | src/RodinExternal/MMG/Cast.cpp:209-219 | exchanging two vertices of a triangle reverses the sign of its area |
| `MmgMeshes.VolumeSwap` | src/RodinExternal/MMG/Cast.cpp:582-587 | exchanging two vertices of a tetrahedron reverses the sign of its volume |
| `MmgMeshes.Oriented` | src/RodinExternal/MMG/Cast.cpp:209-223 | the oriented triangle keeps its reference, first vertex and vertex multiset, stays on the points, is never negatively oriented, and equals the input when that was not negative |
| `MmgMeshes.OrientedTetra` | src/RodinExternal/MMG/Cast.cpp:582-589 | the same for a tetrahedron, whose third and fourth vertices are exchanged |
| `MmgMeshes.IdsShifted` | src/RodinExternal/MMG/Cast.cpp:186-200 | vertex ids raised by one name MMG points 1 .. np |
| `MmgMeshes.ToMmg2DValue` | src/RodinExternal/MMG/Cast.cpp:158-231 | once the checks pass, the MMG 2D mesh holds the padded points, edges from the boundary and oriented triangles, and no tetrahedra |
| `MmgMeshes.ToMmg3DValue` | src/RodinExternal/MMG/Cast.cpp:533-597 | once the checks pass, the MMG 3D mesh holds the padded points, no edges, boundary triangles and oriented tetrahedra |
| `MmgMeshes.ToMmgSValue` | src/RodinExternal/MMG/Cast.cpp:797-844 | once the checks pass, the MMG surface mesh holds the padded points, edges and triangles as they are |
| `MmgMeshes.OrientedTriasIn` | src/RodinExternal/MMG/Cast.cpp:192-224 | after the orientation loop every triangle names MMG points and none is negatively oriented |
| `MmgMeshes.OrientedTetrasIn` | src/RodinExternal/MMG/Cast.cpp:567-596 | the same for tetrahedra |
| `MmgMeshes.ToMmg2DProperties` | src/RodinExternal/MMG/Cast.cpp:119-232 | the library to MMG 2D conversion fails exactly when the mesh is not of dimension 2 in space dimension 2, is empty, is NURBS or has a non-triangle; otherwise the MMG mesh is well formed and all its triangles are counter-clockwise |
| `MmgMeshes.ToMmg3DProperties` | src/RodinExternal/MMG/Cast.cpp:494-598 | the 3D conversion fails exactly on a wrong dimension, an empty or NURBS mesh or a non-tetrahedron; otherwise the result is well formed with positively oriented tetrahedra |
| `MmgMeshes.ToMmgSProperties` | src/RodinExternal/MMG/Cast.cpp:753-844 | the surface conversion fails exactly unless the mesh has dimension 2 in space dimension 3, is non-empty, not NURBS and all triangles; otherwise the result is well formed |
| `MmgMeshes.VerticesBack` | src/RodinExternal/MMG/Cast.cpp:86-93 | padding planar vertices to three coordinates and keeping the first two gives them back |
| `MmgMeshes.TriangleBack` | src/RodinExternal/MMG/Cast.cpp:95-103 | a counter-clockwise triangle is not reoriented, and lowering its ids again gives it back |
| `MmgMeshes.TrianglesBack` | src/RodinExternal/MMG/Cast.cpp:95-103 | counter-clockwise triangles come back unchanged from the way to MMG and back |
| `MmgMeshes.SegmentsBack` | src/RodinExternal/MMG/Cast.cpp:105-112 | boundary segments come back unchanged from edges |
| `MmgMeshes.RoundTrip2D` | src/RodinExternal/MMG/Cast.cpp:31-232 | a planar triangle mesh with positive attributes, segment boundary and counter-clockwise triangles converts to MMG 2D and back to itself |
| `MmgMeshes.MmgMesh.constructor` | src/RodinExternal/MMG/Cast.cpp:161-172 | the counts and their initial copies are set and each array has one entry more than its count |
| `MmgMeshes.MmgMesh.Contents` | src/RodinExternal/MMG/Cast.cpp:82-93 | the used entries are 1 .. n of each array: point k of the contents is array entry k + 1 |
| `MmgMeshes.CopyVertices` | src/RodinExternal/MMG/Cast.cpp:86-93 | the vertex loop adds each point's first sdim coordinates |
| `MmgMeshes.CopyTriangles` | src/RodinExternal/MMG/Cast.cpp:95-103 | the triangle loop adds each triangle with ids lowered by one and reference raised by the shift |
| `MmgMeshes.CopySegments` | src/RodinExternal/MMG/Cast.cpp:105-112 | the edge loop adds each edge as a boundary segment with ids lowered by one and reference raised by the shift |
| `MmgMeshes.CopyTetrahedra` | src/RodinExternal/MMG/Cast.cpp:479-487 | the tetrahedron loop adds each tetrahedron with ids lowered by one and reference raised by the shift |
| `MmgMeshes.Mesh2DToRodin` | src/RodinExternal/MMG/Cast.cpp:31-117 | the conversion run on an MMG 2D mesh object gives what the conversion function describes, error messages included |
| `MmgMeshes.Mesh3DToRodin` | src/RodinExternal/MMG/Cast.cpp:391-492 | the same for an MMG 3D mesh |
| `MmgMeshes.MeshSToRodin` | src/RodinExternal/MMG/Cast.cpp:664-751 | the same for an MMG surface mesh |
| `MmgMeshes.FillPoints` | src/RodinExternal/MMG/Cast.cpp:174-179 | entries 1 .. np of the point array hold the vertices padded to three coordinates |
| `MmgMeshes.FillEdges` | src/RodinExternal/MMG/Cast.cpp:181-190 | entries 1 .. na of the edge array hold the boundary elements' first two ids raised by one and their attributes |
| `MmgMeshes.FillTrias` | src/RodinExternal/MMG/Cast.cpp:830-842 | entries 1 .. nt of the triangle array hold the elements' ids raised by one and their attributes |
| `MmgMeshes.OrientTria` | src/RodinExternal/MMG/Cast.cpp:194-224 | one step of the triangle loop stores the oriented triangle and leaves earlier entries alone |
| `MmgMeshes.FillOrientedTrias` | src/RodinExternal/MMG/Cast.cpp:192-230 | after the loop the triangle array holds the oriented triangles |
| `MmgMeshes.OrientTetra` | src/RodinExternal/MMG/Cast.cpp:569-589 | one step of the tetrahedron loop stores the oriented tetrahedron and leaves earlier entries alone |
| `MmgMeshes.FillOrientedTetras` | src/RodinExternal/MMG/Cast.cpp:567-596 | after the loop the tetrahedron array holds the oriented tetrahedra |
| `MmgMeshes.Build2D` | src/RodinExternal/MMG/Cast.cpp:158-231 | the new MMG 2D mesh object is valid and holds exactly what the 2D conversion function gives |
| `MmgMeshes.Build3D` | src/RodinExternal/MMG/Cast.cpp:533-597 | the new MMG 3D mesh object is valid and holds exactly what the 3D conversion function gives |
| `MmgMeshes.BuildS` | src/RodinExternal/MMG/Cast.cpp:797-844 | the new MMG surface mesh object is valid and holds exactly what the surface conversion function gives |
| `MmgMeshes.Mesh2DFromRodin` | src/RodinExternal/MMG/Cast.cpp:119-232 | fails exactly when the conversion function does, and otherwise returns a fresh valid MMG mesh holding its value |
| `MmgMeshes.Mesh3DFromRodin` | src/RodinExternal/MMG/Cast.cpp:494-598 | the same for MMG 3D |
| `MmgMeshes.MeshSFromRodin` | src/RodinExternal/MMG/Cast.cpp:753-844 | the same for the MMG surface mesh |
| `MmgSolutions.SourceSlot` | src/RodinExternal/MMG/MMG5.h:90-92 | the grid function slot read for a point-major entry lies inside the vector |
| `MmgSolutions.PointOfSlot` | src/RodinExternal/MMG/MMG5.h:86-98 | every grid function slot belongs to a point and component that lay it out there, in either ordering |
| `MmgSolutions.TargetSlot` | src/RodinExternal/MMG/MMG5.h:86-98 | the point-major entry a grid function slot moves to lies inside the vector |
| `MmgSolutions.InterleavedAt` | src/RodinExternal/MMG/MMG5.h:90-92 | component c of point p lands at p * vdim + c, read from the grid function slot of (p, c) |
| `MmgSolutions.DeinterleavedInterleaved` | src/RodinExternal/MMG/MMG5.h:86-98 | reading the MMG layout back into the grid function's ordering gives the grid function vector again |
| `MmgSolutions.InterleavedDeinterleaved` | src/RodinExternal/MMG/MMG5.h:86-98 | laying out a read-back vector gives the MMG layout again, so the layout is a bijection |
| `MmgSolutions.InterleavedByVDim` | src/RodinExternal/MMG/MMG5.h:95-98 | with components side by side the vector is already in MMG's layout, which is why the source copies it as it is |
| `MmgSolutions.InterleavedScalar` | src/RodinExternal/MMG/MMG5.h:80-83 | a scalar vector has the same layout in both orderings |
| `MmgSolutions.OverlayStep` | src/RodinExternal/MMG/MMG5.h:82 | writing one more value extends the written block by one |
| `MmgSolutions.OverlayWhole` | src/RodinExternal/MMG/MMG5.h:82 | after a whole copy the block holds the source and the rest of the buffer is unchanged |
| `MmgSolutions.Zeros` | src/RodinExternal/MMG/MMG5.h:77-78 | a freshly allocated buffer holds zeros |
| `MmgSolutions.CopyInto` | src/RodinExternal/MMG/MMG5.h:82 | the copy writes the source from position lo on and leaves every other entry alone |
| `MmgSolutions.NodeStep` | src/RodinExternal/MMG/MMG5.h:90-92 | the index arithmetic of the node-ordering loop stays inside the buffer and reads the right slot |
| `MmgSolutions.NextRow` | src/RodinExternal/MMG/MMG5.h:90-91 | the block of the next point follows the current one and stays inside the buffer |
| `MmgSolutions.InterleavedPointMajor` | src/RodinExternal/MMG/MMG5.h:90-92 | the MMG layout puts component c of point p at p * vdim + c |
| `MmgSolutions.CopyByNodes` | src/RodinExternal/MMG/MMG5.h:88-94 | the node-ordering loops write the MMG layout of the vector from block 1 on and nothing else |
| `MmgSolutions.CopyPoints` | src/RodinExternal/MMG/MMG5.h:90-92 | the loop over points writes the layout block after block |
| `MmgSolutions.CopyPoint` | src/RodinExternal/MMG/MMG5.h:91-92 | the loop over components writes the block of one point |
| `MmgSolutions.MmgSol.Empty` | src/RodinExternal/MMG/ScalarSolution2D.h:138-141 | an empty solution has no points and no buffer |
| `MmgSolutions.MmgSol.constructor` | src/RodinExternal/MMG/ScalarSolution2D.h:143-147 | a solution of n points has a buffer of size * (n + 1) entries, block 0 unused |
| `MmgSolutions.NpMax` | src/RodinExternal/MMG/MMG5.h:74 | the capacity is the largest of one and a half times the point count (rounded down) and the three NPMAX constants |
| `MmgSolutions.ScalarFromData` | src/RodinExternal/MMG/Cast.cpp:234-254 | an empty vector gives the empty solution; otherwise a solution of one point per entry whose values m[1 .. size] are the vector |
| `MmgSolutions.ScalarFromGridFunction` | src/RodinExternal/MMG/Cast.cpp:313-355 | the same cast from a grid function of vector dimension 1 |
| `MmgSolutions.Vector2DFromGridFunction` | src/RodinExternal/MMG/Cast.cpp:357-389 | an empty grid function gives the empty solution; otherwise size / 2 points whose values from block 1 on are the vector in point-major order, in both orderings |
| `MmgSolutions.CopyFromGridFunction` | src/RodinExternal/MMG/MMG5.h:62-103 | an empty grid function leaves the solution alone; otherwise np = npi = size / vdim, the capacity is NpMax, a missing buffer is allocated zeroed for the capacity, and the values are written in point-major order from block 1 on with the rest of the buffer unchanged |
| `MmgSolutions.CopyPointsInto` | src/RodinExternal/MMG/MMG5.h:71-101 | the same, once the point count is known |
| `MmgSolutions.FillPoints` | src/RodinExternal/MMG/MMG5.h:80-101 | the copy branches (scalar, by nodes, by components) all write the point-major layout from block 1 on and leave the rest of the buffer alone |
| `MmgSolutions.ScalarToData` | src/RodinExternal/MMG/MMG5.h:50-60 | the new coefficient vector has np entries, m[1 .. np] |
| `MeshFormats.HeadersWith` | src/Rodin/IO/Helpers.cpp:7-18 | the header table files exactly the four MFEM headers under MFEM, the Gmsh key under GMSH and the two MEDIT headers under MEDIT |
| `MeshFormats.HeadersAsWritten` | src/Rodin/IO/Helpers.cpp:14 | as written, the table files Gmsh under "$IO::MeshFormat" and not under the Gmsh header line "$MeshFormat" |
| `MeshFormats.Headers` | src/Rodin/IO/Helpers.cpp:7-18 | with the corrected key, "$MeshFormat" is filed under GMSH |
| `MeshFormats.StripCR` | src/Rodin/IO/Helpers.cpp:33-35 | one trailing carriage return is removed and nothing else changes |
| `MeshFormats.Lookup` | src/Rodin/IO/Helpers.cpp:37-44 | a format is returned exactly when the line is a key of the table, and it is the one filed under it |
| `MeshFormats.GetMeshFormat` | src/Rodin/IO/Helpers.cpp:20-45 | the stream position stays inside the stream; with seekBeg it goes back to the start, otherwise it moves forward past the line |
| `MeshFormats.FormatOfFirstLine` | src/Rodin/IO/Helpers.cpp:24-44 | the format is the one of the first non-blank line without its carriage return, and without seekBeg the stream is left just after that line |
| `MeshFormats.BlankHasNoFormat` | src/Rodin/IO/Helpers.cpp:24-44 | a stream of white space only has no format |
| `MeshFormats.HeaderKeysArePlainLines` | src/Rodin/IO/Helpers.cpp:10-16 | no header of the table is empty, starts with white space, holds a line break or ends in a carriage return |
| `MeshFormats.HeaderDetected` | src/Rodin/IO/Helpers.cpp:7-45 | a stream whose first non-blank line is a header of the table, ended by a Unix or DOS line end, has the format the table gives that header |
| `MeshFormats.LineDetected` | src/Rodin/IO/Helpers.cpp:20-45 | the same for any table key that is a plain line |
| `MeshFormats.GmshHeaderUnrecognisedAsWritten` | src/Rodin/IO/Helpers.cpp:14 | as written, a stream that starts with the Gmsh header line has no recognised format |
| `MeshFormats.GmshHeaderRecognised` | src/Rodin/IO/Helpers.cpp:7-45 | with the corrected key the same stream is detected as Gmsh |
| `MeshFormats.Find` | src/Rodin/IO/Helpers.cpp:50-71 | a key lookup in a keyword table fails exactly when no entry has that key, and otherwise returns the value of an entry with that key |
| `MeshFormats.FindAt` | src/Rodin/IO/Helpers.cpp:50-71 | in a table without repeated keys the lookup of an entry's key gives that entry's value |
| `MeshFormats.SolKeywords` | src/Rodin/IO/Helpers.cpp:50-61 | the solution keyword table has seven entries, each key and each keyword once |
| `MeshFormats.EntityKeywordsWith` | src/Rodin/IO/Helpers.cpp:63-71 | the entity keyword table has four entries |
| `MeshFormats.EntityKeywordsAsWritten` | src/Rodin/IO/Helpers.cpp:69 | as written, the entity table is ordered and one-to-one but has no entry under the MEDIT keyword "Tetrahedra" |
| `MeshFormats.EntityKeywords` | src/Rodin/IO/Helpers.cpp:63-71 | with the corrected key, tetrahedra are filed under "Tetrahedra" and the table stays ordered and one-to-one |
| `MeshFormats.EntityTablesComplete` | src/Rodin/IO/Helpers.cpp:63-71 | both tables name every entity keyword |
| `Text.SkipSpace` | src/Rodin/IO/Helpers.cpp:25 | std::ws stops at the first character that is not white space, having skipped only white space |
| `Text.SkipSpaceUnique` | src/Rodin/IO/Helpers.cpp:25 | any position with those two properties is where std::ws stops |
| `Text.LineEnd` | src/Rodin/IO/Helpers.cpp:26 | a line ends at the first line break or at the end of the stream |
| `Text.GetLine` | src/Rodin/IO/MeshLoader.cpp:64 | std::getline fails exactly at the end of the stream; otherwise it returns the text up to the next line break, without it, and moves past it |
| `Text.GetLineOf` | src/Rodin/IO/MeshLoader.cpp:64 | a line followed by a line break is read back as written, whatever surrounds it |
| `Text.GetLineLast` | src/Rodin/IO/MeshLoader.cpp:64 | a last line without a line break is read back as written |
| `Text.TrimEnd` | src/Rodin/IO/MeshLoader.cpp:66 | the end of a string without its trailing white space |
| `Text.Trim` | src/Rodin/IO/MeshLoader.cpp:66 | trimming gives the empty string exactly for white space, and otherwise a string that neither starts nor ends with white space |
| `Text.TrimPadded` | src/Rodin/IO/MeshLoader.cpp:66 | trimming removes exactly the white space around a text that does not start or end with white space |
| `Text.WordEnd` | src/Rodin/IO/MeshLoader.cpp:72 | a word ends at the next white space or the end of the string |
| `Text.ExtractWordOf` | src/Rodin/IO/MeshLoader.cpp:72 | a word followed by white space or nothing is extracted as written |
| `Text.ExtractWord` | src/Rodin/IO/MeshLoader.cpp:72 | extracting a word fails exactly when only white space is left, and otherwise gives a non-empty word without white space |
| `Text.NatText` | src/Rodin/IO/MeshLoader.cpp:77 | the decimal text of a natural number is non-empty digits without a leading zero |
| `Text.NatTextValue` | src/Rodin/IO/MeshLoader.cpp:77 | the digits of that text have the number's value |
| `Text.IntText` | src/Rodin/IO/MeshLoader.cpp:77 | the text of an integer starts with a minus sign exactly when it is negative |
| `Text.ScanInt` | src/Rodin/IO/MeshLoader.cpp:75 | a scanned number ends after the last of a run of digits |
| `Text.ClampInt` | src/Rodin/IO/MeshLoader.cpp:75 | the nearest int to a number: itself when it is an int, the smallest or the largest int otherwise |
| `Text.ExtractInt` | src/Rodin/IO/MeshLoader.cpp:75 | extracting into an int succeeds exactly when a number is scanned and lies in the range of an int, and then gives that number |
| `Text.StoredInt` | src/Rodin/IO/MeshLoader.cpp:75 | what a failed or successful int extraction stores is an int: the extracted value on success, 0 when no number is read, INT_MAX for a number above it and INT_MIN for one below it |
| `Text.ScanIntIs` | src/Rodin/IO/MeshLoader.cpp:75 | white space, an optional sign and digits are scanned as the signed value of the digits |
| `Text.ExtractIntText` | src/Rodin/IO/MeshLoader.cpp:75-77 | an integer written as text is scanned back as itself when no digit follows, and extracted into an int exactly when it lies in the range of an int; a failed extraction stores the nearest int |
| `Text.IntTextParts` | src/Rodin/IO/MeshLoader.cpp:77 | the text of an integer is its sign followed by the digits of its magnitude |
| `Text.SpacedIntsSnoc` | src/Rodin/IO/MeshPrinter.cpp:71-73 | writing one more integer appends a space and its text |
| `Text.RecordTextSnoc` | src/Rodin/IO/MeshPrinter.cpp:71-73 | the same for a record line |
| `Text.ExtractSpacedInts` | src/Rodin/IO/MeshLoader.cpp:186 | ints written each after a space are extracted back in order |
| `Text.ExtractRecord` | src/Rodin/IO/MeshLoader.cpp:186 | the ints of a record line are extracted back in order |
| `Text.ExtractSize` | src/Rodin/IO/MeshLoader.cpp:85 | extracting a size succeeds exactly when a number of magnitude below 2^64 is scanned, and gives a value below 2^64 congruent to it modulo 2^64 |
| `Text.StoredSize` | src/Rodin/IO/MeshLoader.cpp:85 | what a size extraction stores: the extracted value on success, 0 when no number is read, the largest size_t when the magnitude does not fit |
| `Text.ExtractReal` | src/Rodin/IO/MeshLoader.cpp:169-170 | a successful extraction of a floating-point number moves forward in the string |
| `Text.Mantissa` | src/Rodin/IO/MeshLoader.cpp:170 | a mantissa, digits with an optional '.' and fraction digits, is read only when it holds a digit, and ends after its first character |
| `Text.Exponent` | src/Rodin/IO/MeshLoader.cpp:170 | without an 'e' or 'E' after the mantissa, the number is the mantissa and ends there |
| `Text.ExtractRealDecimal` | src/Rodin/IO/MeshLoader.cpp:170 | white space, a sign, digits and an optional '.' with fraction digits are read as the signed exact value of the digits, u + fr/10^\|fr\|, ending after the last digit |
| `Text.ExtractRealExponent` | src/Rodin/IO/MeshLoader.cpp:170 | a mantissa followed by 'e' or 'E', an optional sign and exponent digits x is read as the mantissa times 10^x (divided by 10^x after '-'), ending after the exponent |
| `Text.ExtractRealDanglingExponent` | src/Rodin/IO/MeshLoader.cpp:170 | a mantissa followed by 'e' or 'E' and at most a sign but no exponent digit fails the read |
| `Text.ExtractRealExponentExample` | src/Rodin/IO/MeshLoader.cpp:170 | " -2.5e-1" is read as -0.25, ending at its end |
| `Text.DanglingExponentExample` | src/Rodin/IO/MeshLoader.cpp:170 | "1e" fails the read |
| `Text.DanglingCoordinateExample` | src/Rodin/IO/MeshLoader.cpp:168-170 | coordinates "0 1e" are stored as 0.0 and 0.0: the second read fails |
| `Text.ExtractRealInteger` | src/Rodin/IO/MeshLoader.cpp:169-170 | a number without fraction or exponent is read as its integer |
| `Text.ExtractInts` | src/Rodin/IO/MeshLoader.cpp:186 | n extractions give n integers |
| `Text.ExtractReals` | src/Rodin/IO/MeshLoader.cpp:168-170 | n extractions give n numbers: the first is the number read, and when that read fails every one is 0.0 |
| `MeshLoaders.LoadDelegated` | src/Rodin/IO/MeshLoader.cpp:15-47 | the loader raises "Unrecognized mesh format." exactly when the first line is no known header, succeeds from the start of the stream exactly when it names the loader's format, and otherwise fails with the loader's message |
| `MeshLoaders.LoadMfem` | src/Rodin/IO/MeshLoader.cpp:15-30 | the MFEM loader succeeds exactly on an MFEM header, and fails with "Cannot determine MFEM mesh format version." |
| `MeshLoaders.LoadGmsh` | src/Rodin/IO/MeshLoader.cpp:32-47 | the Gmsh loader succeeds exactly on a Gmsh header, and fails with "Cannot determine Gmsh mesh format version." |
| `MeshLoaders.Keyword` | src/Rodin/IO/MeshLoader.cpp:70-72 | the position after the first word lies inside the line |
| `MeshLoaders.Record` | src/Rodin/IO/MeshLoader.cpp:79-86 | a keyword line records the next line's count for its entity and changes nothing else; it records the position after that line when the line ends with a line break, and -1 (None) when the line ends the stream without one, since tellg fails once getline has set eofbit; with no next line it records -1 and a zero count |
| `MeshLoaders.ScanFrom` | src/Rodin/IO/MeshLoader.cpp:64-87 | the scan ends with its state or fails, and it fails only with "Invalid mesh dimension: d" for some d outside [2, 3]; positions are those `Record` states |
| `MeshLoaders.InferKind` | src/Rodin/IO/MeshLoader.cpp:89-145 | a 3D file without tetrahedra and a 2D file without triangles are surface meshes one dimension down, others volume meshes; the constructor gets the counts of the entities of that kind; a missing count raises map::at; another dimension raises "Unhandled case." |
| `MeshLoaders.CellOf` | src/Rodin/IO/MeshLoader.cpp:184-191 | the cell has the record's vertex numbers minus one and its reference |
| `MeshLoaders.AddRecord` | src/Rodin/IO/MeshLoader.cpp:158-251 | a record adds a vertex, a triangle as element (2D or surface) or boundary element (3D volume), a tetrahedron as element, or an edge as boundary segment; an unhandled dimension raises |
| `MeshLoaders.LoadMedit` | src/Rodin/IO/MeshLoader.cpp:49-55 | the MEDIT loader raises on an unknown header and fails with "Cannot determine Medit mesh format version." on another format |
| `MeshLoaders.WordFacts` | src/Rodin/IO/MeshLoader.cpp:66-72 | a one-word line is trimmed and split as written |
| `MeshLoaders.CountWord` | src/Rodin/IO/MeshLoader.cpp:84-85 | a count line is one word starting with a digit |
| `MeshLoaders.LineSkipped` | src/Rodin/IO/MeshLoader.cpp:64-87 | a line that is neither Dimension nor a keyword of the table is skipped |
| `MeshLoaders.DimensionText` | src/Rodin/IO/MeshLoader.cpp:73-75 | the line "Dimension d" is read as the keyword and the nearest int to d |
| `MeshLoaders.DimensionTrimmed` | src/Rodin/IO/MeshLoader.cpp:66 | trimming leaves a Dimension line unchanged |
| `MeshLoaders.DimensionRead` | src/Rodin/IO/MeshLoader.cpp:72-75 | the keyword and dimension of a Dimension line are extracted back, a dimension outside the range of an int as the nearest int |
| `MeshLoaders.DimensionLine` | src/Rodin/IO/MeshLoader.cpp:73-78 | a Dimension line sets the space dimension when it is 2 or 3 and otherwise ends the load with "Invalid mesh dimension: " and the nearest int to d |
| `MeshLoaders.DimensionRejected` | src/Rodin/IO/MeshLoader.cpp:49-78 | a MEDIT file whose Dimension line follows its header and names a dimension outside [2, 3] is rejected with that message, naming the nearest int to the dimension |
| `MeshLoaders.CountLine` | src/Rodin/IO/MeshLoader.cpp:84-85 | a count line's value is read back |
| `MeshLoaders.EntityLineRecorded` | src/Rodin/IO/MeshLoader.cpp:79-86 | a keyword line of the table followed by a count line records that count for its entity, with the position after the count line when it ends with a line break; a count line that ends the stream without one records -1 and ends the scan |
| `MeshLoaders.CountRecorded` | src/Rodin/IO/MeshLoader.cpp:82-85 | a count line records its count, and the position after it only when it ends with a line break |
| `MeshLoaders.CountIsNoKey` | src/Rodin/IO/Helpers.cpp:63-71 | no count line is a keyword of the table or the Dimension keyword |
| `MeshLoaders.TetrahedraSkippedAsWritten` | src/Rodin/IO/MeshLoader.cpp:79-86 | as written, the keyword line "Tetrahedra" and its count line are both skipped and nothing is recorded for tetrahedra |
| `MeshLoaders.TetrahedraRecorded` | src/Rodin/IO/MeshLoader.cpp:79-86 | with the corrected table, the same lines record the tetrahedra count, and its position as for any count line |
| `MeshLoaders.ThreeDimensionalKind` | src/Rodin/IO/MeshLoader.cpp:91-128 | a 3D file without a tetrahedra count becomes a surface mesh of its triangles; one with tetrahedra a volume mesh of them |
| `MeshLoaders.LineCount` | src/Rodin/IO/MeshLoader.cpp:163-166 | no line is left exactly at the end of the stream |
| `MeshLoaders.ShortSectionFails` | src/Rodin/IO/MeshLoader.cpp:163-166 | a section declaring more records than lines left ends the load with "Bad mesh format." |
| `MeshLoaders.SectionGrowth` | src/Rodin/IO/MeshLoader.cpp:158-247 | a section with enough lines adds exactly its count of items to the list of its entity and keeps what was added before |
| `MeshLoaders.RecordsStep` | src/Rodin/IO/MeshLoader.cpp:163-173 | one record read moves the section on by one line |
| `MeshLoaders.RecordsFail` | src/Rodin/IO/MeshLoader.cpp:165-166 | a failed stream or a missing line fails the section with "Bad mesh format." |
| `MeshLoaders.SeekFailureFailsNextSection` | src/Rodin/IO/MeshLoader.cpp:148-166 | a section whose recorded position is -1 fails the stream at its seek, so the next section of the table with records ends the load with "Bad mesh format.", even when the first section is empty |
| `MeshLoaders.RecordsStop` | src/Rodin/IO/MeshLoader.cpp:187-204 | a record that raises ends the section with that outcome |
| `MeshLoaders.RecordGrowth` | src/Rodin/IO/MeshLoader.cpp:158-247 | a handled record adds one vertex, element or boundary element and keeps the rest |
| `MeshLoaders.TriangleRecord` | src/Rodin/IO/MeshLoader.cpp:184-191 | a triangle record "a b c r" of ints becomes the triangle a-1, b-1, c-1 with reference r |
| `MeshLoaders.TriangleRead` | src/Rodin/IO/MeshLoader.cpp:185-191 | the same from the extracted integers |
| `MeshLoaders.TetrahedronRecord` | src/Rodin/IO/MeshLoader.cpp:216-219 | a tetrahedron record "a b c d r" of ints becomes the tetrahedron a-1, b-1, c-1, d-1 with reference r |
| `MeshLoaders.TetrahedronRead` | src/Rodin/IO/MeshLoader.cpp:216-219 | the same from the extracted integers |
| `MeshLoaders.ScanLines` | src/Rodin/IO/MeshLoader.cpp:64-87 | the getline loop computes the scan |
| `MeshLoaders.ReadRecord` | src/Rodin/IO/MeshLoader.cpp:158-251 | the switch on the entity adds what AddRecord describes |
| `MeshLoaders.ReadRecordLines` | src/Rodin/IO/MeshLoader.cpp:163-245 | the loop over a section's records computes the section |
| `MeshLoaders.ReadAllSections` | src/Rodin/IO/MeshLoader.cpp:147-260 | the loop over the keyword table reads the sections in table order |
| `MeshLoaders.LoadMeditStream` | src/Rodin/IO/MeshLoader.cpp:49-272 | the MEDIT loader computes what LoadMedit describes |
| `MeshPrinters.Coord` | src/Rodin/IO/MeshPrinter.cpp:28-29 | coordinate k of a vertex is its stored coordinate, and 0 beyond the coordinates it has |
| `MeshPrinters.Shifted` | src/Rodin/IO/MeshPrinter.cpp:72-73 | every vertex index is written 1-based, in order |
| `MeshPrinters.GmshHead` | src/Rodin/IO/MeshPrinter.cpp:19 | the MeshFormat section is the "$MeshFormat" line, then version 2.2, ASCII (0) and the stream precision, then "$EndMeshFormat" |
| `MeshPrinters.NodeLines` | src/Rodin/IO/MeshPrinter.cpp:25-31 | node i is written on line i, numbered i + 1, with its three coordinates |
| `MeshPrinters.BoundaryCode` | src/Rodin/IO/MeshPrinter.cpp:45-66 | a boundary element has a Gmsh type exactly when it is a segment, a triangle or a quadrilateral |
| `MeshPrinters.ElementCode` | src/Rodin/IO/MeshPrinter.cpp:82-118 | an element has a Gmsh type exactly when it is neither a point nor a prism |
| `MeshPrinters.Coded` | src/Rodin/IO/MeshPrinter.cpp:42-128 | the elements written before the first one without a type code all have one |
| `MeshPrinters.ElementLines` | src/Rodin/IO/MeshPrinter.cpp:42-128 | the element loop writes line k for element k, numbered from the offset, up to the first element without a type code, and stops there |
| `MeshPrinters.ElementLinesComplete` | src/Rodin/IO/MeshPrinter.cpp:42-128 | every line is written exactly when every element has a type code |
| `MeshPrinters.GmshStatus` | src/Rodin/IO/MeshPrinter.cpp:13-132 | Gmsh printing succeeds exactly when every boundary element and element has a Gmsh type, raises "Unknown boundary element type." exactly when a boundary element has none, and never returns an error |
| `MeshPrinters.GmshLinesNumbered` | src/Rodin/IO/MeshPrinter.cpp:36-128 | boundary elements are numbered 1 to NBE and elements NBE + 1 to NBE + NE, each with its own type code |
| `MeshPrinters.GmshElementSection` | src/Rodin/IO/MeshPrinter.cpp:36-129 | a file printed in full declares NBE + NE elements, then lists them and closes the section |
| `MeshPrinters.GmshElementLineRead` | src/Rodin/IO/MeshPrinter.cpp:67-74 | an element line holds its number, its type, the tag count 1, its attribute and its 1-based vertex numbers, and these integers, when they are ints, are read back from it as written |
| `MeshPrinters.GmshPrintedLoaded` | src/Rodin/IO/MeshPrinter.cpp:19 | the as-written header table rejects the file the Gmsh printer writes; the corrected table accepts it as Gmsh |
| `MeshPrinters.GmshFirstToken` | src/Rodin/IO/MeshPrinter.cpp:19 | a Gmsh file always starts with its MeshFormat section |
| `MeshPrinters.GmshTextHead` | src/Rodin/IO/MeshPrinter.cpp:19 | the text of a Gmsh file starts with the "$MeshFormat" line |
| `MeshPrinters.MeditCoords` | src/Rodin/IO/MeshPrinter.cpp:154-155 | a vertex line holds the first sdim coordinates, each followed by a space |
| `MeshPrinters.CellLines` | src/Rodin/IO/MeshPrinter.cpp:167-174 | a section has one line per cell, in order |
| `MeshPrinters.EdgeLineRecord` | src/Rodin/IO/MeshPrinter.cpp:232-234 | an edge line is its two 1-based vertex numbers and its attribute |
| `MeshPrinters.TriangleLineRecord` | src/Rodin/IO/MeshPrinter.cpp:170-173 | a triangle line is its three 1-based vertex numbers and its attribute |
| `MeshPrinters.TetrahedronLineRecord` | src/Rodin/IO/MeshPrinter.cpp:208-212 | a tetrahedron line is its four 1-based vertex numbers and its attribute |
| `MeshPrinters.CellOfRecord` | src/Rodin/IO/MeshPrinter.cpp:167-234 | the MEDIT loader reads back the cell from a line of 1-based vertex numbers and an attribute |
| `MeshPrinters.MeditCellReadBack` | src/Rodin/IO/MeshPrinter.cpp:160-241 | every MEDIT cell line written for a triangle, tetrahedron or edge whose 1-based vertex numbers and attribute are ints is read back by the MEDIT loader as that cell |
| `MeshPrinters.MeditFirstToken` | src/Rodin/IO/MeshPrinter.cpp:141-144 | a MEDIT file always starts with its version and Dimension lines |
| `MeshPrinters.DimensionLinePlain` | src/Rodin/IO/MeshPrinter.cpp:143 | the Dimension line has no line break inside it |
| `MeshPrinters.MeditTextHead` | src/Rodin/IO/MeshPrinter.cpp:141-144 | a MEDIT file's text is the version line, the Dimension line and the rest |
| `MeshPrinters.MeditVersionLine` | src/Rodin/IO/MeshPrinter.cpp:141 | "MeshVersionFormatted 2" names MEDIT in both header tables |
| `MeshPrinters.MeditPrintedFormat` | src/Rodin/IO/MeshPrinter.cpp:134-244 | the format of a printed MEDIT file is detected as MEDIT, and the next line read is its Dimension line |
| `MeshPrinters.MeditPrintedDimensionRejected` | src/Rodin/IO/MeshPrinter.cpp:143 | a MEDIT file printed for a space dimension other than 2 or 3 is rejected by the loader with "Invalid mesh dimension: " and the nearest int to that dimension |
| `MeshPrinters.WriteElementLine` | src/Rodin/IO/MeshPrinter.cpp:67-74 | the line loop writes the element line |
| `MeshPrinters.WriteElementLines` | src/Rodin/IO/MeshPrinter.cpp:42-128 | the element loop writes the element lines and stops at the first element without a type |
| `MeshPrinters.WriteNodes` | src/Rodin/IO/MeshPrinter.cpp:25-31 | the node loop writes the node lines |
| `MeshPrinters.PrintGmsh` | src/Rodin/IO/MeshPrinter.cpp:13-132 | Gmsh printing writes what GmshOutput describes and returns or raises its status |
| `MeshPrinters.WriteCellLine` | src/Rodin/IO/MeshPrinter.cpp:170-234 | one cell's line |
| `MeshPrinters.WriteCells` | src/Rodin/IO/MeshPrinter.cpp:167-235 | the cell loop writes the cell lines |
| `MeshPrinters.WriteVertices` | src/Rodin/IO/MeshPrinter.cpp:151-157 | the vertex loop writes sdim coordinates and the reference 0 for each vertex |
| `MeshPrinters.PrintMedit` | src/Rodin/IO/MeshPrinter.cpp:134-244 | MEDIT printing writes triangles and edges in 2D, triangles and tetrahedra in 3D, and fails with "Bad mesh dimension: " otherwise |
| `GridFunctionPrinters.SolutionTypeOf` | src/Rodin/IO/GridFunctionPrinter.hpp:41 | the solution is a vector exactly when it has more than one component |
| `GridFunctionPrinters.Cells` | src/Rodin/IO/GridFunctionPrinter.hpp:51-52 | the first j components of a vertex take two tokens each, a value and a space |
| `GridFunctionPrinters.NumbersOfAppend` | src/Rodin/IO/GridFunctionPrinter.hpp:31-68 | the values and the line breaks of a stream written in two parts are those of the first part followed by those of the second |
| `GridFunctionPrinters.HeadNumbers` | src/Rodin/IO/GridFunctionPrinter.hpp:31-42 | the head of a solution file holds no value |
| `GridFunctionPrinters.CellsNumbers` | src/Rodin/IO/GridFunctionPrinter.hpp:51-52 | the first j values written for vertex i are its components 0 to j - 1, read from the entries the ordering gives, on one line |
| `GridFunctionPrinters.RowNumbers` | src/Rodin/IO/GridFunctionPrinter.hpp:49-54 | the line of vertex i holds its vdim components in component order and ends with the only line break it holds |
| `GridFunctionPrinters.RowsNumbers` | src/Rodin/IO/GridFunctionPrinter.hpp:45-67 | the lines of the first i vertices hold the first i * vdim values of the point-major layout, and i line breaks |
| `GridFunctionPrinters.RowBlock` | src/Rodin/IO/GridFunctionPrinter.hpp:49-54 | the line of vertex p continues the point-major layout from entry p * vdim to entry (p + 1) * vdim |
| `GridFunctionPrinters.SolutionValues` | src/Rodin/IO/GridFunctionPrinter.hpp:24-69 | a solution file holds exactly the grid function's values laid out vertex after vertex, its components side by side, whichever the ordering, on one line per vertex |
| `GridFunctionPrinters.SolutionReadBack` | src/Rodin/IO/GridFunctionPrinter.hpp:24-69 | reading the values of a solution file back in the grid function's ordering gives its vector: nothing is lost or reordered |
| `GridFunctionPrinters.WriteRow` | src/Rodin/IO/GridFunctionPrinter.hpp:49-64 | the inner loop writes component j of vertex i from entry i + j * NV with node ordering and j + i * vdim with component ordering |
| `GridFunctionPrinters.PrintSolution` | src/Rodin/IO/GridFunctionPrinter.hpp:24-69 | the MEDIT printer writes the head, one line per vertex and the End keyword, which SolutionValues and SolutionReadBack describe |
| `ImplicitMeshers.WithRule` | src/RodinExternal/MMG/ImplicitDomainMesher.cpp:24-36 | setting the rule of a reference adds that reference, gives it the rule and leaves every other rule as it was |
| `ImplicitMeshers.WithRuleOverwrites` | src/RodinExternal/MMG/ImplicitDomainMesher.cpp:24-36 | setting a reference's rule twice keeps only the second rule |
| `ImplicitMeshers.WithRuleCommutes` | src/RodinExternal/MMG/ImplicitDomainMesher.cpp:24-36 | rules for two different references can be set in either order with the same result |
| `ImplicitMeshers.ImplicitDomainMesher.constructor` | src/RodinExternal/MMG/ImplicitDomainMesher.h:31-35 | a new mesher has level 0, discretises the volume, and has no RMC value, no boundary reference and no split rules |
| `ImplicitMeshers.ImplicitDomainMesher.SetLevelSet` | src/RodinExternal/MMG/ImplicitDomainMesher.cpp:5-9 | stores the level and returns the mesher itself, changing nothing else |
| `ImplicitMeshers.ImplicitDomainMesher.SetRMC` | src/RodinExternal/MMG/ImplicitDomainMesher.cpp:11-15 | stores the RMC value and returns the mesher itself, changing nothing else |
| `ImplicitMeshers.ImplicitDomainMesher.SetBoundaryReference` | src/RodinExternal/MMG/ImplicitDomainMesher.cpp:17-22 | stores the boundary reference and returns the mesher itself, changing nothing else |
| `ImplicitMeshers.ImplicitDomainMesher.SplitReference` | src/RodinExternal/MMG/ImplicitDomainMesher.cpp:24-29 | sets or overwrites the reference's rule to a split into the given interior and exterior, keeps the other rules, and returns the mesher itself |
| `ImplicitMeshers.ImplicitDomainMesher.NoSplitReference` | src/RodinExternal/MMG/ImplicitDomainMesher.cpp:31-36 | sets or overwrites the reference's rule to no split, keeps the other rules, and returns the mesher itself |
| `ImplicitMeshers.ImplicitDomainMesher.SetSplit` | src/RodinExternal/MMG/ImplicitDomainMesher.cpp:38-43 | a non-empty map replaces every rule, and the mesher itself is returned |
| `EssentialBoundaries.ComponentAdded` | src/Rodin/Variational/EssentialBoundary.h:78-82 | adding a component value files it under the trial function and the index, creates the trial function's entry when absent, and leaves every other component and trial function as it was |
| `EssentialBoundaries.NonEmptyEntries` | src/Rodin/Variational/EssentialBoundary.h:45-54 | the entries kept are exactly those that hold a component, unchanged |
| `EssentialBoundaries.ComponentAddedNoEmpty` | src/Rodin/Variational/EssentialBoundary.h:74-83 | adding a component never leaves a trial function entry without components |
| `EssentialBoundaries.NonEmptyEntriesAll` | src/Rodin/Variational/EssentialBoundary.h:45-54 | when no entry is empty, copying keeps every entry |
| `EssentialBoundaries.NonEmptyEntriesDrops` | src/Rodin/Variational/EssentialBoundary.h:45-54 | an entry without components is not carried over by the copy |
| `EssentialBoundaries.CopyValues` | src/Rodin/Variational/EssentialBoundary.h:35-43 | copying the values one trial function at a time gives the same map |
| `EssentialBoundaries.CopyComponents` | src/Rodin/Variational/EssentialBoundary.h:47-53 | copying the components of one trial function creates its entry with those components, or nothing when it has none |
| `EssentialBoundaries.CopyComponentMap` | src/Rodin/Variational/EssentialBoundary.h:45-54 | copying the component map gives its entries that hold components |
| `EssentialBoundaries.EssentialBoundary.constructor` | src/Rodin/Variational/EssentialBoundary.h:31 | a new essential boundary holds no value |
| `EssentialBoundaries.EssentialBoundary.Copy` | src/Rodin/Variational/EssentialBoundary.h:33-55 | the copy holds the same values with the same attributes, and the same component values wherever every component entry holds a component |
| `EssentialBoundaries.EssentialBoundary.Add` | src/Rodin/Variational/EssentialBoundary.h:64-72 | with matching range types, the value and its attributes replace any value given before for the trial function, and nothing else changes |
| `EssentialBoundaries.EssentialBoundary.AddComponent` | src/Rodin/Variational/EssentialBoundary.h:74-83 | with a scalar value, the value and its attributes are filed under the trial function and the index, nothing else changes, and no empty entry appears |
| `Layout.OuterProduct` | src/Rodin/Variational/Rank3Operator.cpp:284-291 | a 1 × 1 × n·vdim result whose slot k + i·n holds shape(k) · v(i) |
| `Layout.ScaledBlock` | src/Rodin/Variational/Rank3Operator.cpp:287-290 | the inner loop writes block i as shape scaled by v(i) and leaves every other slot as it was |
| `ShapeOperators.ScalarShapeOperator.constructor` | src/Rodin/Variational/Rank3Operator.h:280-283 | the operator keeps the shape values and the vector dimension it is given |
| `ShapeOperators.JacobianShapeOperator.constructor` | src/Rodin/Variational/Rank3Operator.h:307-311 | the operator keeps the gradient matrix, the space dimension and the vector dimension it is given |

## Left out

- Numerics in MFEM and MMG are not modelled; they are foreign calls. This covers quadrature, the integrators' local matrices and vectors, shape functions and their derivatives, `FormLinearSystem`, and the `mmg2dls`, `mmg3dls` and `mmgsls` remeshers. Local matrices and vectors, element volumes and boundary element areas are inputs.
- `ImplicitDomainMesher::discretize` and the `discretizeMMG2D`, `discretizeMMG3D` and `discretizeMMGS` calls are not modelled. They pass the settings to MMG and run its remesher. Only the settings they read are modelled.
- `ImplicitDomainMesher::surface` is declared but not defined in `ImplicitDomainMesher.cpp`. So `meshTheSurface` keeps its default. The `setHMin`, `setHMax`, `setHausdorff` and `setGradation` setters forward to the MMG5 base class, which is not part of this model.
- Text.ExtractInts, Text.ExtractReals: from the first failed extraction on, every value is 0. In the source the first failed extraction stores `StoredInt` (0, or the nearest int for an out-of-range number) and the later ones leave their variables as they were (here uninitialised; for `ExtractReals`, the vertex coordinates of MeshLoader.cpp:168-170).
- IEEE floating-point behaviour is not modelled: doubles are `real`, and a number is read as the exact value of its decimal text, not the nearest double. There is no rounding, overflow to infinity, NaN, hexadecimal float or "inf"/"nan" text.
- `GridFunctions.GridFunction.DivideScalar`, `GridFunctions.GridFunction.DivideAssign` and `GridFunctions.SelfDivide` require non-zero divisors. With reals, the source's division by zero (an infinity or NaN) has no counterpart.
- How a double is printed depends on the stream's precision. The printers take it as the parameter `realText`.
- The MFEM and Gmsh loaders only check the format. They then hand the stream to `mfem::Mesh`, which is not modelled. The MFEM printers of meshes and grid functions (`mfem::Mesh::Print`, `GridFunction::Save`) are left out for the same reason.
- `FinalizeMesh`, called by the MEDIT loader after the last section, is not part of this model.
- The MEDIT loader leaves the third coordinate of a 2D vertex uninitialised. The model reads only the space dimension's coordinates.
- File opening and closing and the `seekg`/`tellg` positioning are modelled as positions in a string; -1, which `tellg` returns once the stream is not good, is None, and a seek to it fails the stream.
- The spelling of the MEDIT keywords in solution files comes from a keyword table that is not part of this model. The solution printer writes the keywords as tokens.
- `MMG2D_NPMAX`, `MMG3D_NPMAX` and `MMGS_NPMAX` are MMG constants that are not part of this model. So is the library's default simplex attribute. All of them are parameters.
- MMG's memory-allocation failures (`MMG5_SAFE_CALLOC` raising) are not modelled. Neither are the bodies of the MMG solution constructors (`ScalarSolution2D.h:147`, `VectorSolution2D.h:138`). The model assumes `npmax == np` and a buffer of `size * (np + 1)` reals.
- `MmgSolutions.CopyFromGridFunction`: requires that `dst.size` is the vector dimension and that an existing buffer is large enough. The source assumes both and does not check them.
- `GridFunctions.GridFunction.Transfer`: requires every submesh vertex to be in the vertex map when transferring to the parent. There the source's `at` would throw `std::out_of_range`.
- `MeshOperations.GetPerimeterAsWritten`: requires the element count to be at most the number of boundary areas. Past that count the source reads boundary elements that do not exist.
- Warnings (`Alert::Warning`) print a message and change nothing, so they are not modelled. One example is the MMGS warnings about RMC and splitting.
- The move constructor and move assignment of `EssentialBoundary` are not modelled, and neither are its getters, which return a map unchanged. A move hands the state over unchanged.
- Each list element is a clone, and a clone is modelled as an equal value. Object identity is therefore not modelled: a clone is not distinct from its original.
- The numeric kernels outside the modelled files are not modelled either. These are element volume, area and normal computations, `Point::operator<`, and the proxy classes that only delegate to MFEM (`ShapeFunction.h`, `Grad.h`, `Jacobian.h`, `Div.h`, `Derivative.h`).

## Findings

| source | as written | input that shows it | evidently intended | confidence | as-written member | corrected member |
|---|---|---|---|---|---|---|
| src/Rodin/Variational/Rank3Operator.cpp:81-123 | `LeftMatrixMult` and `RightMatrixMult` assign `(*result)(i, j, l) = …` inside the loop over k, so each entry keeps only the k = n − 1 term | the 2 × 2 identity times the one-dof 2 × 1 operator (1, 0) gives 0 at entry (0, 0, 0), not 1; the 1 × 2 operator (1, 0) times the identity on the right gives 0 there too | accumulate with `+=` over k | not executed | `Rank3.LeftMultAsWrittenLosesTerms`, `Rank3.RightMultAsWrittenLosesTerms` | `Rank3.LeftMatrixMultSummed`, `Rank3.RightMatrixMultSummed` |
| src/Rodin/FormLanguage/List.h:85-94 | copy-assignment appends clones of the other list's elements without clearing the target first | assigning [b] to [a] leaves [a, b] | the target equals the source | not executed | `FormList.CopyAssignAppends`, `FormList.List.AssignCopy` | `FormList.CopyAssign`, `FormList.List.AssignCopyCorrected` |
| src/Rodin/Variational/BasisOperator.h:303-315 | the scalar `operator+` returns lhs + lhs and `operator-` returns lhs − lhs; rhs is ignored | [0] + [1] gives [0] | lhs + rhs and lhs − rhs | not executed | `TensorBases.PlusAsWrittenIgnoresRhs`, `TensorBases.AsWrittenAgreesOnlyOnEqualOperands` | `TensorBases.MinusInvertsPlus` |
| src/Rodin/Variational/BasisOperator.h:335-339 | the scalar `operator/` multiplies by rhs | [1] / 2 gives [2] | divide by rhs | not executed | `TensorBases.DividedAsWrittenMultiplies` | `TensorBases.DividedInvertsScaled` |
| src/Rodin/Mesh/Mesh.cpp:139-145 | `getPerimeter` loops over the element count while summing boundary element areas | one element and three boundary edges of area 1 give 1, not 3 | loop over the boundary element count | not executed | `MeshOperations.PerimeterAsWrittenMissesEdges`, `MeshOperations.GetPerimeterAsWritten` | `MeshOperations.GetPerimeter` |
| src/Rodin/Geometry/MeshBuilder.cpp:100-101 | the second `setOffsets` call receives the index list; `setOffsets` is declared in no file of this model, so the reading that the second call replaces the offsets rests on the method's name alone | one triangle [0, 1, 2] gets offsets [0, 1, 2] instead of [0, 3], and no index list | `setIndices(indices)` | not executed | `MeshBuilders.ElementTableAsWrittenWrong`, `MeshBuilders.ElementTableAsWrittenExample`, `MeshBuilders.Builder.FinalizeAsWritten` | `MeshBuilders.ElementTableDescribes`, `MeshBuilders.Builder.Finalize` |
| src/Rodin/IO/Helpers.cpp:14 | the Gmsh header key is "$IO::MeshFormat" | a stream whose first line is "$MeshFormat" (as the Gmsh printer writes it) has no recognised format, so the Gmsh loader raises | key "$MeshFormat" | not executed | `MeshFormats.GmshHeaderUnrecognisedAsWritten`, `MeshPrinters.GmshPrintedLoaded` | `MeshFormats.GmshHeaderRecognised` |
| src/Rodin/IO/Helpers.cpp:69 | the entity keyword table files Tetrahedra under "SolAtTetrahedra" | a MEDIT file with a "Tetrahedra" line followed by a count line: the section is skipped | key "Tetrahedra", which the MEDIT printer writes | not executed | `MeshFormats.EntityKeywordsAsWritten`, `MeshLoaders.TetrahedraSkippedAsWritten` | `MeshFormats.EntityKeywords`, `MeshLoaders.TetrahedraRecorded` |
