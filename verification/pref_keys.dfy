/**
 * Preference keys the dialog reads or stages. The key strings stand for the
 * constants of `org.broad.igv.prefs.Constants`, which is not part of this
 * model; the model relies only on their being pairwise distinct.
 */
module PrefKeys {

  // Commit coordinator
  const PortEnabled := "PORT_ENABLED"
  const PortNumber := "PORT_NUMBER"
  const EnableGoogleMenu := "ENABLE_GOOGLE_MENU"
  const SaveGoogleCredentials := "SAVE_GOOGLE_CREDENTIALS"
  const ProbeMapping := "PROBE_MAPPING_KEY"
  const ProbeMappingFile := "PROBE_MAPPING_FILE"

  // Variant colours staged on OK
  const HomRefColor := "HOMREF_COLOR"
  const HetVarColor := "HETVAR_COLOR"
  const HomVarColor := "HOMVAR_COLOR"
  const NoCallColor := "NOCALL_COLOR"
  const AfRefColor := "AF_REF_COLOR"
  const AfVarColor := "AF_VAR_COLOR"
  const VariantColorByAlleleFreq := "VARIANT_COLOR_BY_ALLELE_FREQ"

  // Integer fields
  const JunctionMinFlankingWidth := "SAM_JUNCTION_MIN_FLANKING_WIDTH"
  const JunctionMinCoverage := "SAM_JUNCTION_MIN_COVERAGE"
  const MaxInsertSizeThreshold := "SAM_MAX_INSERT_SIZE_THRESHOLD"
  const MinInsertSizeThreshold := "SAM_MIN_INSERT_SIZE_THRESHOLD"
  const QualityThreshold := "SAM_QUALITY_THRESHOLD"
  const LargeIndelsThreshold := "SAM_LARGE_INDELS_THRESHOLD"
  const ClippingThreshold := "SAM_CLIPPING_THRESHOLD"
  const SmallIndelBpThreshold := "SAM_SMALL_INDEL_BP_THRESHOLD"
  const SamplingWindow := "SAM_SAMPLING_WINDOW"
  const SamplingCount := "SAM_SAMPLING_COUNT"
  const TrackHeight := "TRACK_HEIGHT_KEY"
  const ChartTrackHeight := "CHART_TRACK_HEIGHT_KEY"
  const FlankingRegion := "FLANKING_REGION"
  const BaseQualityMin := "SAM_BASE_QUALITY_MIN"
  const BaseQualityMax := "SAM_BASE_QUALITY_MAX"
  const TooltipInitialDelay := "TOOLTIP_INITIAL_DELAY"
  const TooltipReshowDelay := "TOOLTIP_RESHOW_DELAY"
  const TooltipDismissDelay := "TOOLTIP_DISMISS_DELAY"
  const DbPort := "DB_PORT"

  // Floating-point fields
  const DefaultVisibilityWindow := "DEFAULT_VISIBILITY_WINDOW"
  const MinInsertSizePercentile := "SAM_MIN_INSERT_SIZE_PERCENTILE"
  const MaxInsertSizePercentile := "SAM_MAX_INSERT_SIZE_PERCENTILE"
  const MaxVisibleRange := "SAM_MAX_VISIBLE_RANGE"
  const AlleleThreshold := "SAM_ALLELE_THRESHOLD"
  const CramCacheSize := "CRAM_CACHE_SIZE"
  const MaxSequenceResolution := "MAX_SEQUENCE_RESOLUTION"

  // Text and checkbox fields with behaviour of their own
  const HiddenTags := "SAM_HIDDEN_TAGS"
  const ShadeBases := "SAM_SHADE_BASES"
  const ShowDuplicates := "SAM_SHOW_DUPLICATES"
  const BypassFileAutoDiscovery := "BYPASS_FILE_AUTO_DISCOVERY"
  const OverlayMutationTracks := "OVERLAY_MUTATION_TRACKS"
  const OverlayAttribute := "OVERLAY_ATTRIBUTE_KEY"
  const ShowAttributeViews := "SHOW_ATTRIBUTE_VIEWS_KEY"
  const GenomesServerUrl := "GENOMES_SERVER_URL"
  const DataServerUrl := "DATA_SERVER_URL_KEY"

  // Proxy
  const UseProxy := "USE_PROXY"
  const ProxyAuthenticate := "PROXY_AUTHENTICATE"
  const ProxyHost := "PROXY_HOST"
  const ProxyPort := "PROXY_PORT"
  const ProxyUser := "PROXY_USER"
  const ProxyPassword := "PROXY_PW"
  const ProxyType := "PROXY_TYPE"
  const ProxyWhitelist := "PROXY_WHITELIST"
}
